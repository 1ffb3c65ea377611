/**
  Which rendered HTTPRoute a request path selects, under the Gateway API's precedence: an Exact match
  first, then the longest element-wise PathPrefix (_exposure.tpl, signout.go).
 */
module Routing {
  import opened Text
  import opened SignOut
  import opened Values
  import opened Exposure
  import opened Protection
  import opened Closure

  // ----- Element-wise prefixes -----------------------------------------------------------------------

  /** The elements of a prefix; a trailing slash is ignored. */
  function Elements(prefix: string): seq<string> {
    Split(TrimSlashes(prefix), '/')
  }

  predicate PrefixMatches(prefix: string, path: string) {
    Elements(prefix) <= Split(path, '/')
  }

  lemma ElementsThenText(a: string, b: string, sep: char)
    requires Split(a, sep) <= Split(b, sep)
    ensures a == b || a + [sep] <= b
  {
    var x, y := Split(a, sep), Split(b, sep);
    JoinSplit(a, sep);
    JoinSplit(b, sep);
    if x != y {
      var rest := y[|x|..];
      assert y == x + rest && rest != [];
      JoinConcat(x, rest, [sep]);
      assert b == (a + [sep]) + Join(rest, [sep]);
    } else {
      assert a == b;
    }
  }

  /** Elements agree exactly when the text does, up to the slash that ends an element. */
  lemma SplitPrefix(a: string, b: string, sep: char)
    ensures Split(a, sep) <= Split(b, sep) <==> a == b || a + [sep] <= b
  {
    if a + [sep] <= b {
      var rest := b[|a| + 1..];
      assert b == a + [sep] + rest;
      SplitConcat(a, sep, rest);
      assert Split(b, sep) == Split(a, sep) + Split(rest, sep);
    } else if Split(a, sep) <= Split(b, sep) {
      ElementsThenText(a, b, sep);
    }
  }

  /** A prefix matches a path that equals it or continues it with a slash. */
  lemma PrefixMeaning(prefix: string, path: string)
    ensures PrefixMatches(prefix, path) <==> path == TrimSlashes(prefix) || TrimSlashes(prefix) + "/" <= path
  {
    SplitPrefix(TrimSlashes(prefix), path, '/');
  }

  /** Among prefixes of one path, more elements and more characters order alike. */
  lemma LongerByElementsOrCharacters(p: string, q: string, path: string)
    requires PrefixMatches(p, path) && PrefixMatches(q, path)
    ensures |Elements(p)| > |Elements(q)| <==> |TrimSlashes(p)| > |TrimSlashes(q)|
  {
    assert Elements(p) <= Elements(q) || Elements(q) <= Elements(p);
    SplitPrefix(TrimSlashes(p), TrimSlashes(q), '/');
    SplitPrefix(TrimSlashes(q), TrimSlashes(p), '/');
    if |Elements(p)| == |Elements(q)| {
      JoinSplit(TrimSlashes(p), '/');
      JoinSplit(TrimSlashes(q), '/');
      assert Elements(p) == Elements(q);
    }
  }

  // ----- Selection -------------------------------------------------------------------------------------

  predicate RouteMatches(route: Manifest, path: string)
    requires route.HTTPRoute?
  {
    if route.pathType == "Exact" then route.path == path else PrefixMatches(route.path, path)
  }

  /** Exact beats prefix, and a longer prefix beats a shorter one. */
  predicate Beats(a: Manifest, b: Manifest)
    requires a.HTTPRoute? && b.HTTPRoute?
  {
    b.pathType != "Exact" && (a.pathType == "Exact" || |Elements(a.path)| > |Elements(b.path)|)
  }

  ghost predicate AllRoutes(routes: seq<Manifest>) {
    forall i | 0 <= i < |routes| :: routes[i].HTTPRoute?
  }

  /** Route `i` is still there once all are applied, and matches. */
  ghost predicate InForce(routes: seq<Manifest>, path: string, i: nat)
    requires AllRoutes(routes)
  {
    Applied(routes, i) && RouteMatches(routes[i], path)
  }

  /** Route `i` is in force and nothing in force beats it. */
  ghost predicate Selected(routes: seq<Manifest>, path: string, i: nat)
    requires AllRoutes(routes)
  {
    InForce(routes, path, i) && forall j: nat | InForce(routes, path, j) :: !Beats(routes[j], routes[i])
  }

  lemma RenderedAllRoutes(v: Values, docs: seq<Manifest>)
    requires Rendered(v, docs)
    ensures AllRoutes(HttpRoutes(docs))
  {
    SelectMembers(docs, IsRoute);
    forall i | 0 <= i < |HttpRoutes(docs)|
      ensures HttpRoutes(docs)[i].HTTPRoute?
    {
      assert HttpRoutes(docs)[i] in HttpRoutes(docs);
    }
  }

  /** An owned entry that takes `path` from the proxy: an exact match, or a prefix as long as the proxy's. */
  ghost predicate TakesPath(v: Values, r: Route, path: string) {
    if Default(r.pathType, "PathPrefix") == "Exact" then Default(r.path, "/") == path
    else PrefixMatches(Default(r.path, "/"), path)
         && |Elements(Default(r.path, "/"))| >= |Elements(Prefix(v) + "/")|
  }

  /** What the HTTPRoutes after the first are, and when each is still there once all are applied. */
  lemma OwnedRoute(v: Values, docs: seq<Manifest>, k: nat)
    requires Rendered(v, docs) && k < |Owned(v)|
    ensures AllRoutes(HttpRoutes(docs)) && |HttpRoutes(docs)| == |Owned(v)| + 1
    ensures Exposes(v, Owned(v)[k], HttpRoutes(docs)[k + 1])
    ensures Applied(HttpRoutes(docs), k + 1) <==> LastOfName(Owned(v), k)
  {
    CoverageInOrder(v, docs);
    RenderedAllRoutes(v, docs);
    var owned, routes := Owned(v), HttpRoutes(docs);
    assert Exposes(v, owned[k], routes[1..][k]);
    forall j | 0 <= j < |owned|
      ensures routes[j + 1].name == routes[k + 1].name <==> owned[j].name == owned[k].name
    {
      assert Exposes(v, owned[j], routes[1..][j]);
      DashedIsInjective(BaseName(v), owned[j].name, owned[k].name);
    }
    if Applied(routes, k + 1) {
      forall j | k < j < |owned|
        ensures owned[j].name != owned[k].name
      {
        assert routes[j + 1].name != routes[k + 1].name;
      }
    } else {
      var j :| k + 1 < j < |routes| && routes[j].name == routes[k + 1].name;
      assert owned[j - 1].name == owned[k].name by {
        assert routes[j - 1 + 1] == routes[j];
      }
    }
  }

  /** The proxy's own HTTPRoute is still there exactly when no owned entry is named "proxy". */
  lemma ProxyRouteIsKept(v: Values, docs: seq<Manifest>)
    requires Rendered(v, docs)
    ensures Applied(HttpRoutes(docs), 0) <==> forall k | 0 <= k < |Owned(v)| :: Owned(v)[k].name != PROXY_ROUTE
  {
    CoverageInOrder(v, docs);
    var owned, routes := Owned(v), HttpRoutes(docs);
    forall k | 0 <= k < |owned|
      ensures routes[k + 1].name == routes[0].name <==> owned[k].name == PROXY_ROUTE
    {
      assert Exposes(v, owned[k], routes[1..][k]);
      DashedIsInjective(BaseName(v), owned[k].name, PROXY_ROUTE);
    }
    if !Applied(routes, 0) {
      var j :| 0 < j < |routes| && routes[j].name == routes[0].name;
      assert routes[j - 1 + 1] == routes[j];
    }
  }

  /** A route in force that the first does not beat is selected, or beaten by one that is. */
  lemma NothingBeyondZero(routes: seq<Manifest>, path: string, k: nat)
    requires AllRoutes(routes) && 0 < k && InForce(routes, path, k)
    requires !Beats(routes[0], routes[k]) && Selected(routes, path, 0)
    ensures Selected(routes, path, k)
  {
  }

  /** Selection of the first route alone: it is in force and beats every other one that is. */
  lemma FirstAlone(routes: seq<Manifest>, path: string)
    requires AllRoutes(routes) && routes != [] && RouteMatches(routes[0], path) && routes[0].pathType != "Exact"
    ensures (forall i: nat :: Selected(routes, path, i) <==> i == 0) <==>
            Applied(routes, 0) && forall j: nat | 0 < j && InForce(routes, path, j) :: Beats(routes[0], routes[j])
  {
    if Applied(routes, 0) && forall j: nat | 0 < j && InForce(routes, path, j) :: Beats(routes[0], routes[j]) {
      assert Selected(routes, path, 0);
    } else if forall i: nat :: Selected(routes, path, i) <==> i == 0 {
      assert Selected(routes, path, 0);
      var j: nat :| 0 < j && InForce(routes, path, j) && !Beats(routes[0], routes[j]);
      NothingBeyondZero(routes, path, j);
      assert false;
    }
  }

  /** An owned entry takes the path once applied: it is the last of its name, and the proxy's does not beat it. */
  lemma TakesPathInForce(v: Values, docs: seq<Manifest>, path: string, k: nat)
    requires Rendered(v, docs) && k < |Owned(v)|
    ensures AllRoutes(HttpRoutes(docs)) && |HttpRoutes(docs)| == |Owned(v)| + 1
    ensures LastOfName(Owned(v), k) && TakesPath(v, Owned(v)[k], path) <==>
            InForce(HttpRoutes(docs), path, k + 1) && !Beats(HttpRoutes(docs)[0], HttpRoutes(docs)[k + 1])
  {
    CoverageInOrder(v, docs);
    OwnedRoute(v, docs, k);
  }

  lemma NoneTakesPathExactlyWhen(v: Values, docs: seq<Manifest>, path: string)
    requires Rendered(v, docs) && AllRoutes(HttpRoutes(docs)) && HttpRoutes(docs) != []
    ensures (forall j: nat | 0 < j && InForce(HttpRoutes(docs), path, j) ::
               Beats(HttpRoutes(docs)[0], HttpRoutes(docs)[j])) <==>
            forall k: nat | LastOfName(Owned(v), k) :: !TakesPath(v, Owned(v)[k], path)
  {
    var routes := HttpRoutes(docs);
    if j: nat :| 0 < j && InForce(routes, path, j) && !Beats(routes[0], routes[j]) {
      CoverageInOrder(v, docs);
      TakesPathInForce(v, docs, path, j - 1);
    }
    if k: nat :| LastOfName(Owned(v), k) && TakesPath(v, Owned(v)[k], path) {
      TakesPathInForce(v, docs, path, k);
    }
  }

  /**
    A path under the proxy's prefix selects the proxy's own HTTPRoute, and it alone, exactly when no
    owned entry is named "proxy" and none that is the last of its name takes the path.
   */
  lemma ProxyPathsReachTheProxy(v: Values, docs: seq<Manifest>, path: string)
    requires Rendered(v, docs) && PrefixMatches(Prefix(v) + "/", path)
    ensures AllRoutes(HttpRoutes(docs)) && HttpRoutes(docs) != [] && HttpRoutes(docs)[0] == ProxyRoute(v)
    ensures (forall i: nat :: Selected(HttpRoutes(docs), path, i) <==> i == 0) <==>
            && (forall k | 0 <= k < |Owned(v)| :: Owned(v)[k].name != PROXY_ROUTE)
            && forall k: nat | LastOfName(Owned(v), k) :: !TakesPath(v, Owned(v)[k], path)
  {
    CoverageInOrder(v, docs);
    RenderedAllRoutes(v, docs);
    ProxyRouteIsKept(v, docs);
    var routes := HttpRoutes(docs);
    FirstAlone(routes, path);
    NoneTakesPathExactlyWhen(v, docs, path);
  }

  lemma AppliedInTail(docs: seq<Manifest>, i: nat)
    requires docs != []
    ensures Applied(docs, i + 1) <==> Applied(docs[1..], i)
  {
    if Applied(docs, i + 1) {
      assert forall j | i < j < |docs[1..]| :: docs[1..][j] == docs[j + 1];
    } else if i + 1 < |docs| {
      var j :| i + 1 < j < |docs| && docs[j].name == docs[i + 1].name;
      assert docs[1..][j - 1] == docs[j];
    }
  }

  /** For every other path, adding the proxy route changes nothing. */
  lemma OtherPathsAreUntouched(v: Values, docs: seq<Manifest>, path: string, i: nat)
    requires Rendered(v, docs) && !PrefixMatches(Prefix(v) + "/", path)
    ensures AllRoutes(HttpRoutes(docs)) && HttpRoutes(docs) != [] && AllRoutes(HttpRoutes(docs)[1..])
    ensures !Selected(HttpRoutes(docs), path, 0)
    ensures Selected(HttpRoutes(docs), path, i + 1) <==> Selected(HttpRoutes(docs)[1..], path, i)
  {
    CoverageInOrder(v, docs);
    RenderedAllRoutes(v, docs);
    var routes := HttpRoutes(docs);
    var owned := routes[1..];
    assert !RouteMatches(routes[0], path);
    forall j: nat
      ensures InForce(routes, path, j + 1) <==> InForce(owned, path, j)
    {
      AppliedInTail(routes, j);
    }
    if Selected(owned, path, i) {
      forall j: nat | InForce(routes, path, j)
        ensures !Beats(routes[j], routes[i + 1])
      {
        assert InForce(owned, path, j - 1);
      }
    }
    if Selected(routes, path, i + 1) {
      forall j: nat | InForce(owned, path, j)
        ensures !Beats(owned[j], owned[i])
      {
        assert InForce(routes, path, j + 1);
      }
    }
  }

  // ----- What a request meets ------------------------------------------------------------------------------

  lemma OwnedEntryIsMet(v: Values, docs: seq<Manifest>, i: nat)
    requires ProtectsExactly(v, docs) && 0 < i <= |Owned(v)|
    ensures var entry := Owned(v)[i - 1];
            && (Guarded(docs, Dashed(BaseName(v), entry.name)) <==> entry.protected)
            && (entry.protected ==> GuardedAs(docs, Dashed(BaseName(v), entry.name), entry.authenticatedOnly))
  {
    SelectMembers(Routes(v), IsOwned);
    var entry := Owned(v)[i - 1];
    assert entry in Owned(v) && Target(v, entry) == Dashed(BaseName(v), entry.name);
  }

  /** Protection in terms of the rendered HTTPRoutes. */
  lemma RouteIsMet(v: Values, docs: seq<Manifest>, i: nat)
    requires Rendered(v, docs) && ProtectsExactly(v, docs) && i < |HttpRoutes(docs)|
    ensures |HttpRoutes(docs)| == |Owned(v)| + 1 && HttpRoutes(docs)[i].HTTPRoute?
    ensures i == 0 ==> HttpRoutes(docs)[i] == ProxyRoute(v) && !Guarded(docs, HttpRoutes(docs)[i].name)
    ensures i > 0 ==>
              var route, entry := HttpRoutes(docs)[i], Owned(v)[i - 1];
              && Exposes(v, entry, route)
              && (Guarded(docs, route.name) <==> entry.protected)
              && (entry.protected ==> GuardedAs(docs, route.name, entry.authenticatedOnly))
  {
    CoverageInOrder(v, docs);
    if i > 0 {
      OwnedRoute(v, docs, i - 1);
      OwnedEntryIsMet(v, docs, i);
    }
  }

  /**
    With no stray target and nothing lost, whatever path is requested: an HTTPRoute the request
    selects is behind no policy exactly when it is the proxy's or an unprotected entry's, and on a
    protected entry's there are only policies as strict as the entry asks.
   */
  lemma RequestsMeetTheirEntry(v: Values, docs: seq<Manifest>, path: string, i: nat)
    requires Rendered(v, docs) && NoStrayTarget(v) && NoTargetLost(v) && NoPostureLost(v)
    requires AllRoutes(HttpRoutes(docs)) && Selected(HttpRoutes(docs), path, i)
    ensures |HttpRoutes(docs)| == |Owned(v)| + 1 && HttpRoutes(docs)[0] == ProxyRoute(v)
    ensures i > 0 ==> Exposes(v, Owned(v)[i - 1], HttpRoutes(docs)[i])
    ensures !Guarded(docs, HttpRoutes(docs)[i].name) <==> i == 0 || !Owned(v)[i - 1].protected
    ensures i > 0 && Owned(v)[i - 1].protected ==>
              GuardedAs(docs, HttpRoutes(docs)[i].name, Owned(v)[i - 1].authenticatedOnly)
  {
    ProtectionIsExact(v, docs);
    CoverageInOrder(v, docs);
    RouteIsMet(v, docs, i);
  }

  // ----- The proxy's own URLs ------------------------------------------------------------------------------

  predicate Rooted(prefix: string) {
    prefix != "" && prefix[0] == '/'
  }

  lemma {:induction false} TrimmedOffIsSlashes(s: string)
    ensures |TrimSlashes(s)| <= |s| && Slashes(s[|TrimSlashes(s)|..])
  {
    if s != "" && s[|s| - 1] == '/' {
      TrimmedOffIsSlashes(s[..|s| - 1]);
      var n := |TrimSlashes(s)|;
      assert s[n..] == s[..|s| - 1][n..] + ['/'];
    }
  }

  lemma SignOutBase(p: string, redirectTo: string, escape: string -> string)
    requires p != ""
    ensures var base := SignOutURL(p, "", escape);
            && base == TrimSlashes(WithSlash(p)) + "/sign_out"
            && base <= SignOutURL(p, redirectTo, escape)
  {
  }

  /** Literally under the prefix and its slash: only for prefixes in normal form. */
  lemma SignOutUnderPrefix(p: string, base: string)
    requires p != "" && base == TrimSlashes(WithSlash(p)) + "/sign_out"
    ensures p + "/" <= base <==> Rooted(p) && p[|p| - 1] != '/'
  {
    TrimSlashesShape(WithSlash(p));
    if !Rooted(p) {
      assert base[0] == '/' && (p + "/")[0] == p[0];
    } else if p[|p| - 1] != '/' {
      assert base == (p + "/") + "sign_out";
    } else {
      var n := |TrimSlashes(p)|;
      TrimmedOffIsSlashes(p);
      assert n < |p| && base[n + 1] == 's' && (p + "/")[n + 1] == '/';
    }
  }

  /** Matched element by element: for every rooted prefix. */
  lemma SignOutMatched(p: string, base: string)
    requires p != "" && base == TrimSlashes(WithSlash(p)) + "/sign_out"
    ensures PrefixMatches(p + "/", base) <==> Rooted(p)
  {
    TrimSlashesShape(WithSlash(p));
    TrimSlashesShape(p);
    TrimSlashesTail(p, "/");
    TrimmedOffIsSlashes(p);
    PrefixMeaning(p + "/", base);
    if Rooted(p) {
      assert TrimSlashes(p) + "/" <= base;
    } else {
      assert base[0] == '/' && TrimSlashes(p) != "" && TrimSlashes(p)[0] == p[0];
    }
  }

  /**
    The sign-out link built for an install's prefix lies literally under the rendered match exactly
    when the prefix is in normal form, and is matched by it exactly when the prefix is rooted.
   */
  lemma SignOutReachesTheProxy(v: Values, redirectTo: string, escape: string -> string)
    ensures SignOutURL(v.proxyPrefix, "", escape) <= SignOutURL(v.proxyPrefix, redirectTo, escape)
    ensures Prefix(v) + "/" <= SignOutURL(v.proxyPrefix, "", escape) <==>
            Rooted(Prefix(v)) && Prefix(v)[|Prefix(v)| - 1] != '/'
    ensures PrefixMatches(Prefix(v) + "/", SignOutURL(v.proxyPrefix, "", escape)) <==> Rooted(Prefix(v))
  {
    assert SignOutURL(v.proxyPrefix, "", escape) == SignOutURL(Prefix(v), "", escape);
    assert SignOutURL(v.proxyPrefix, redirectTo, escape) == SignOutURL(Prefix(v), redirectTo, escape);
    SignOutBase(Prefix(v), redirectTo, escape);
    SignOutUnderPrefix(Prefix(v), SignOutURL(Prefix(v), "", escape));
    SignOutMatched(Prefix(v), SignOutURL(Prefix(v), "", escape));
  }

  lemma CallbackUrls(v: Values)
    requires v.gateway.Some? && Cfg(v).Success? && OidcDocs(v).Success? && OidcDocs(v).value != []
    ensures OidcDocs(v).value[0].OIDCApp?
    ensures var registered, cfg := OidcDocs(v).value[0].redirectUri, Cfg(v).value;
            && cfg.redirectUrl == registered == "https://" + v.hostname + cfg.proxyPrefix + "/callback"
            && "https://" + v.hostname + ProxyRoute(v).path <= registered
  {
    var host := "https://" + v.hostname;
    assert OidcDocs(v).value[0].redirectUri == host + ProxyRoute(v).path + "callback";
  }

  /** The callback the proxy is configured with is the one the OIDC client registers, and it is the proxy's path. */
  lemma CallbacksAgree(v: Values, docs: seq<Manifest>, config: Manifest, app: Manifest)
    requires Rendered(v, docs) && config in docs && config.ConfigMap? && app in docs && app.OIDCApp?
    ensures config.cfg.redirectUrl == app.redirectUri
    ensures config.cfg.redirectUrl == "https://" + v.hostname + config.cfg.proxyPrefix + "/callback"
    ensures HttpRoutes(docs) != [] && HttpRoutes(docs)[0].HTTPRoute?
            && "https://" + v.hostname + HttpRoutes(docs)[0].path <= app.redirectUri
  {
    CoverageInOrder(v, docs);
    var entries := RenderParts(v, docs);
    KindsOfDocs(v, docs, entries);
    assert config == ProxyDocs(v).value[2] && app == OidcDocs(v).value[0];
    CallbackUrls(v);
  }
}
