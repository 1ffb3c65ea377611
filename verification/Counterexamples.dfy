/** Values that render and break an expected property of the exposure, one lemma each. */
module Counterexamples {
  import opened Wrappers
  import opened Text
  import opened Values
  import opened Exposure
  import opened Protection
  import opened Closure
  import opened Names
  import opened Routing
  import opened Scopes
  import opened SignOut

  const NO_BACKEND := Backend(None, None)

  const SHOP := Values(
    "shop", "prod", "dev", true, "", "shop.example.com", "https://id.example.com", "", "", false,
    Some(Gateway("public", "gateways", "https")), IdentityValues("zitadel", "", "", "", "", true, "7", ""), "", "",
    [], ["staff"], Backend(Some("web"), Some(80)), "oauth2-proxy", "v7", false, "", false, "", "")

  /** Whatever its entries, scopes, store and cookie Secret are, given the guards on those. */
  lemma ShopRenders(v: Values) returns (docs: seq<Manifest>)
    requires v == SHOP.(routes := v.routes, identity := SHOP.identity.(scopes := v.identity.scopes),
                        sessionRefresh := v.sessionRefresh, sessionStoreUrl := v.sessionStoreUrl,
                        cookieSecret := v.cookieSecret)
    requires forall r | r in v.routes :: r.name != "" && r.backend == NO_BACKEND
    requires v.identity.scopes != "" ==> Contains(OFFLINE_ACCESS, v.identity.scopes)
    ensures Rendered(v, docs)
  {
    RendersExactlyWhen(v);
    assert Routes(v) == if v.routes == [] then [APP_ROUTE] else v.routes;
    docs := Render(v).value;
  }

  /** A shared session store and a generated cookie Secret: the generator is not rendered. */
  lemma DanglingGenerator() returns (v: Values, docs: seq<Manifest>)
    ensures Rendered(v, docs) && !Closed(v, docs)
  {
    v := SHOP.(sessionStoreUrl := "redis://sessions:6379");
    docs := ShopRenders(v);
    RenderIsClosed(v, docs);
  }

  /** A supplied cookie Secret and an own store: the generator is rendered and nothing uses it. */
  lemma GeneratorNobodyUses() returns (v: Values, docs: seq<Manifest>, generator: Manifest)
    ensures Rendered(v, docs) && generator in docs && generator.Password?
    ensures forall d | d in docs :: GeneratorRef(generator.name) !in Uses(d)
  {
    v := SHOP.(cookieSecret := "shared-cookie");
    docs := ShopRenders(v);
    UnusedGenerator(v, docs);
    generator :| generator in docs && generator.Password?;
  }

  /** A protected entry named "proxy" puts the login endpoints behind the login. */
  lemma ProxyBehindItself() returns (v: Values, docs: seq<Manifest>)
    ensures Rendered(v, docs) && Guarded(docs, ProxyRoute(v).name) && !ProtectsExactly(v, docs)
  {
    var entry := Route("proxy", "/", "", true, false, "", NO_BACKEND);
    v := SHOP.(routes := [entry]);
    docs := ShopRenders(v);
    GuardedByEntry(v, docs, Dashed("shop", "proxy"));
    SelectTwo(entry, entry, IsProtected);
    assert LastFor(v, 0, Dashed("shop", "proxy"));
  }

  /** An entry's name goes unchecked into object names. */
  lemma IllegalEntryName() returns (v: Values, docs: seq<Manifest>, route: Manifest)
    ensures Rendered(v, docs) && route in docs && route.HTTPRoute? && !Subdomain(route.name)
  {
    var entry := Route("Admin UI", "/", "", false, false, "", NO_BACKEND);
    v := SHOP.(routes := [entry]);
    docs := ShopRenders(v);
    route := OnlyRoute(v, docs, entry);
    SplitWithout(entry.name, '.');
    EntryNameIsLegalExactlyWhen(BaseName(v), entry.name);
    assert !Alnum(entry.name[0]);
  }

  lemma OnlyRoute(v: Values, docs: seq<Manifest>, entry: Route) returns (route: Manifest)
    requires Rendered(v, docs) && Routes(v) == [entry] && !entry.Attached()
    ensures route in docs && route.HTTPRoute? && route.name == Dashed(BaseName(v), entry.name)
  {
    CoverageInOrder(v, docs);
    SelectTwo(entry, entry, IsOwned);
    SelectMembers(docs, IsRoute);
    assert Owned(v) == [entry];
    route := HttpRoutes(docs)[1..][0];
    assert Exposes(v, entry, route) && route == HttpRoutes(docs)[1];
  }

  lemma TwoEntries(v: Values, a: Route, b: Route)
    requires Routes(v) == [a, b]
    ensures a.protected && b.protected ==> Protected(v) == [a, b]
    ensures !a.Attached() && b.Attached() ==> Owned(v) == [a]
  {
    SelectTwo(a, b, IsProtected);
    SelectTwo(a, b, IsOwned);
  }

  lemma SecondIsLast(first: Route, second: Route)
    requires first.name == second.name
    ensures forall k: nat | LastOfName([first, second], k) :: k == 1
  {
    assert [first, second][1].name == [first, second][0].name;
  }

  lemma SecondPolicyWins(v: Values, docs: seq<Manifest>, own: Route, attached: Route)
    requires Rendered(v, docs) && Routes(v) == [own, attached] && own.protected && attached.protected
    requires own.name == attached.name && Target(v, own) != Target(v, attached)
    ensures !Guarded(docs, Target(v, own))
  {
    TwoEntries(v, own, attached);
    GuardedByEntry(v, docs, Target(v, own));
    SecondIsLast(own, attached);
  }

  lemma OneOwnRoute(v: Values, docs: seq<Manifest>, own: Route, attached: Route)
    requires Rendered(v, docs) && Routes(v) == [own, attached] && !own.Attached() && attached.Attached()
    requires own.name != PROXY_ROUTE
    ensures Distinct(HttpRoutes(docs))
  {
    TwoEntries(v, own, attached);
    assert DistinctNames(Owned(v));
    RouteNamesAreDistinct(v, docs);
  }

  /** Two protected entries of one name, bound to different routes: only one route keeps a policy. */
  lemma LostPolicy() returns (v: Values, docs: seq<Manifest>)
    ensures Rendered(v, docs) && NoStrayTarget(v) && Distinct(HttpRoutes(docs))
    ensures exists r :: r in Routes(v) && r.protected && !Guarded(docs, Target(v, r))
  {
    var own := Route("app", "/", "", true, false, "", NO_BACKEND);
    var attached := own.(targetRouteName := "legacy");
    v := SHOP.(routes := [own, attached]);
    docs := ShopRenders(v);
    assert "legacy"[0] != BaseName(v)[0];
    OneOwnRoute(v, docs, own, attached);
    SecondPolicyWins(v, docs, own, attached);
    assert own in Routes(v) && !Guarded(docs, Target(v, own));
  }

  lemma SecondPostureWins(v: Values, docs: seq<Manifest>, own: Route, attached: Route)
    requires Rendered(v, docs) && Routes(v) == [own, attached] && own.protected && attached.protected
    requires own.name == attached.name && own.authenticatedOnly != attached.authenticatedOnly
    requires Target(v, own) == Target(v, attached)
    ensures Guarded(docs, Target(v, own)) && !GuardedAs(docs, Target(v, own), own.authenticatedOnly)
  {
    TwoEntries(v, own, attached);
    assert LastFor(v, 1, Target(v, own)) && Protected(v)[1] == attached;
    GuardedByEntry(v, docs, Target(v, own));
    GuardedAsByEntry(v, docs, Target(v, own), own.authenticatedOnly);
  }

  /** A second entry of the same name and route asks for any login only, and the allow-list is gone. */
  lemma LostAllowList() returns (v: Values, docs: seq<Manifest>)
    ensures Rendered(v, docs) && NoStrayTarget(v) && NoTargetLost(v) && Distinct(HttpRoutes(docs))
    ensures exists r :: r in Routes(v) && r.protected && !r.authenticatedOnly
                        && Guarded(docs, Target(v, r)) && !GuardedAs(docs, Target(v, r), false)
  {
    var own := Route("app", "/", "", true, false, "", NO_BACKEND);
    var attached := own.(targetRouteName := "shop-app", authenticatedOnly := true);
    v := SHOP.(routes := [own, attached]);
    docs := ShopRenders(v);
    assert Target(v, own) == Dashed("shop", "app") == "shop-app";
    OneOwnRoute(v, docs, own, attached);
    SecondPostureWins(v, docs, own, attached);
    OneTarget(v, own, attached);
    NothingOpenButTheProxy(v, own, attached);
    assert own in Routes(v);
  }

  lemma NothingOpenButTheProxy(v: Values, own: Route, attached: Route)
    requires Routes(v) == [own, attached] && own.protected && attached.protected
    requires Target(v, own) == Target(v, attached) && !own.Attached() && own.name != PROXY_ROUTE
    ensures NoStrayTarget(v)
  {
    TargetIs(v, own, PROXY_ROUTE);
    TargetIs(v, attached, PROXY_ROUTE);
  }

  lemma OneTarget(v: Values, own: Route, attached: Route)
    requires Routes(v) == [own, attached] && own.protected && attached.protected && own.name == attached.name
    requires Target(v, own) == Target(v, attached)
    ensures NoTargetLost(v)
  {
    TwoEntries(v, own, attached);
    assert LastFor(v, 1, Target(v, own));
  }

  /** An unprotected entry named "proxy" replaces the proxy's HTTPRoute: sign-in no longer reaches the proxy. */
  lemma ReplacedProxyRoute() returns (v: Values, docs: seq<Manifest>, path: string)
    ensures Rendered(v, docs) && ProtectsExactly(v, docs)
    ensures PrefixMatches(Prefix(v) + "/", path)
    ensures AllRoutes(HttpRoutes(docs)) && !Selected(HttpRoutes(docs), path, 0)
    ensures forall k | 0 <= k < |Owned(v)| :: !TakesPath(v, Owned(v)[k], path)
  {
    var entry := Route("proxy", "/", "", false, false, "", NO_BACKEND);
    v, path := SHOP.(routes := [entry]), "/oauth2/start";
    docs := ShopRenders(v);
    NothingProtected(v, docs, entry);
    StartIsTheProxys(v, path);
    OnlyEntryIsTheProxys(v, docs, entry, path);
    RootTakesLittle(v, entry, path);
  }

  lemma StartIsTheProxys(v: Values, path: string)
    requires v.proxyPrefix == "" && path == "/oauth2/start"
    ensures PrefixMatches(Prefix(v) + "/", path)
  {
    TrimSlashesShape("/oauth2");
    TrimSlashesTail("/oauth2", "/");
    PrefixMeaning(Prefix(v) + "/", path);
    assert path == "/oauth2" + "/" + "start";
  }

  lemma NothingProtected(v: Values, docs: seq<Manifest>, entry: Route)
    requires Rendered(v, docs) && Routes(v) == [entry] && !entry.protected
    ensures ProtectsExactly(v, docs)
  {
    ProtectionIsExact(v, docs);
  }

  lemma OnlyEntryIsTheProxys(v: Values, docs: seq<Manifest>, entry: Route, path: string)
    requires Rendered(v, docs) && Routes(v) == [entry] && !entry.Attached() && entry.name == PROXY_ROUTE
    ensures Owned(v) == [entry] && AllRoutes(HttpRoutes(docs)) && !Selected(HttpRoutes(docs), path, 0)
  {
    SelectTwo(entry, entry, IsOwned);
    assert Owned(v) == [entry] && Owned(v)[0].name == PROXY_ROUTE;
    RenderedAllRoutes(v, docs);
    ProxyRouteIsKept(v, docs);
  }

  /** The root prefix has one element, fewer than the proxy's. */
  lemma RootTakesLittle(v: Values, entry: Route, path: string)
    requires v.proxyPrefix == "" && entry.path == "/" && entry.pathType == ""
    ensures !TakesPath(v, entry, path)
  {
    assert TrimSlashes("/") == TrimSlashes("") == "";
    TrimSlashesShape("/oauth2");
    TrimSlashesTail("/oauth2", "/");
    SplitConcat("", '/', "oauth2");
    assert "/oauth2" == "" + ['/'] + "oauth2";
    SplitWithout("oauth2", '/');
  }

  lemma LongerWord(word: string) returns (v: Values)
    requires Without(word, ' ') && OFFLINE_ACCESS < word
    ensures v == SHOP.(sessionRefresh := "1h", identity := SHOP.identity.(scopes := "openid " + word))
    ensures Cfg(v).Success? && Cfg(v).value.refresh != "" && OFFLINE_ACCESS !in Words(Cfg(v).value.scope)
    ensures Contains(OFFLINE_ACCESS, v.identity.scopes)
  {
    v := SHOP.(sessionRefresh := "1h", identity := SHOP.identity.(scopes := "openid " + word));
    GuardAcceptsALongerWord(v, word);
  }

  lemma RenderedConfig(v: Values, docs: seq<Manifest>) returns (config: Manifest)
    requires Rendered(v, docs)
    ensures config in docs && config.ConfigMap? && Cfg(v) == Success(config.cfg)
  {
    var entries := RenderParts(v, docs);
    KindsOfDocs(v, docs, entries);
    config := ProxyDocs(v).value[2];
  }

  /** Letters that pass the refresh guard and request no refresh token. */
  lemma RefreshThatCannotWork() returns (v: Values, docs: seq<Manifest>, config: Manifest)
    ensures Rendered(v, docs) && config in docs && config.ConfigMap? && config.cfg.refresh != ""
    ensures OFFLINE_ACCESS !in Words(config.cfg.scope)
  {
    v := LongerWord("offline_access_all");
    docs := ShopRenders(v);
    config := RenderedConfig(v, docs);
  }
}
