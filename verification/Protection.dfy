/** Which routes of a rendered exposure are behind a SecurityPolicy (_exposure.tpl). */
module Protection {
  import opened Wrappers
  import opened Text
  import opened Sources
  import opened Values
  import opened Exposure

  // ----- Selecting documents and entries ---------------------------------------------------------

  function Select<T>(items: seq<T>, keep: T -> bool): seq<T> {
    if items == [] then []
    else (if keep(items[0]) then [items[0]] else []) + Select(items[1..], keep)
  }

  lemma {:induction false} SelectConcat<T>(a: seq<T>, b: seq<T>, keep: T -> bool)
    ensures Select(a + b, keep) == Select(a, keep) + Select(b, keep)
  {
    if a == [] {
      assert a + b == b;
    } else {
      var first := if keep(a[0]) then [a[0]] else [];
      assert (a + b)[0] == a[0] && (a + b)[1..] == a[1..] + b;
      SelectConcat(a[1..], b, keep);
      assert first + (Select(a[1..], keep) + Select(b, keep)) == (first + Select(a[1..], keep)) + Select(b, keep);
    }
  }

  lemma {:induction false} SelectMembers<T>(items: seq<T>, keep: T -> bool)
    ensures forall x :: x in Select(items, keep) <==> x in items && keep(x)
  {
    if items != [] {
      SelectMembers(items[1..], keep);
      assert forall x :: x in items <==> x == items[0] || x in items[1..];
    }
  }

  predicate IsPolicy(d: Manifest) {
    d.SecurityPolicy?
  }

  predicate IsRoute(d: Manifest) {
    d.HTTPRoute?
  }

  predicate IsProtected(r: Route) {
    r.protected
  }

  predicate IsOwned(r: Route) {
    !r.Attached()
  }

  function Policies(docs: seq<Manifest>): seq<Manifest> {
    Select(docs, IsPolicy)
  }

  function HttpRoutes(docs: seq<Manifest>): seq<Manifest> {
    Select(docs, IsRoute)
  }

  function Protected(v: Values): seq<Route> {
    Select(Routes(v), IsProtected)
  }

  function Owned(v: Values): seq<Route> {
    Select(Routes(v), IsOwned)
  }

  // ----- What the entries become --------------------------------------------------------------------

  /** A header reaches the next filter and the backend; header names ignore case. */
  predicate Passes(headers: seq<string>, name: string) {
    exists h | h in headers :: ToLower(h) == ToLower(name)
  }

  /** The policy of a protected entry, as its operator reads it. */
  ghost predicate Protects(v: Values, r: Route, policy: Manifest) {
    && policy.SecurityPolicy?
    && policy.name == Dashed(BaseName(v), r.name)
    && policy.target == (if r.targetRouteName != "" then r.targetRouteName else Dashed(BaseName(v), r.name))
    && policy.extAuth == ProxyName(BaseName(v))
    && (set h | h in policy.headers) ==
         {"x-auth-request-access-token", "x-auth-request-user", "x-auth-request-email", "x-auth-request-groups"}
         + (if v.passAuthorizationHeader then {"authorization"} else {})
    && (forall read | read in [ACCESS_TOKEN, USER, EMAIL, GROUPS] :: Passes(policy.headers, read))
    && (policy.jwt.None? <==> r.authenticatedOnly)
    && (policy.jwt.Some? ==>
          && policy.jwt.value.issuer == v.issuer
          && policy.jwt.value.jwksUri ==
               (if v.identity.jwksUri == "" then v.issuer + "/oauth/v2/keys" else v.identity.jwksUri)
          && policy.jwt.value.extractFrom == ACCESS_TOKEN
          && policy.jwt.value.groups == v.groups
          && policy.jwt.value.providers == [policy.jwt.value.ruleProvider])
  }

  /** The HTTPRoute of an entry the chart owns. */
  ghost predicate Exposes(v: Values, r: Route, route: Manifest) {
    && route.HTTPRoute?
    && route.name == Dashed(BaseName(v), r.name)
    && Some(route.parent) == v.gateway && route.hostname == v.hostname
    && route.path == Default(r.path, "/") && route.pathType == Default(r.pathType, "PathPrefix")
    && var backend := if r.backend.Empty() then v.backend else r.backend;
       Some(route.backend) == backend.name && Some(route.port) == backend.port
  }

  /** One policy per protected entry, in order. */
  ghost predicate ProtectsEach(v: Values, entries: seq<Route>, policies: seq<Manifest>) {
    |entries| == |policies| && forall i | 0 <= i < |entries| :: Protects(v, entries[i], policies[i])
  }

  /** One HTTPRoute per owned entry, in order. */
  ghost predicate ExposesEach(v: Values, entries: seq<Route>, routes: seq<Manifest>) {
    |entries| == |routes| && forall i | 0 <= i < |entries| :: Exposes(v, entries[i], routes[i])
  }

  lemma OwnDocs(v: Values, r: Route, own: seq<Manifest>)
    requires v.gateway.Some? && OwnRouteDocs(v, r) == Success(own)
    ensures |own| == 1 && Exposes(v, r, own[0])
  {
  }

  lemma AccessTokenHeader()
    ensures ToLower("x-auth-request-access-token") == ToLower(ACCESS_TOKEN)
  {
  }

  lemma UserHeader()
    ensures ToLower("x-auth-request-user") == ToLower(USER)
  {
  }

  lemma EmailHeader()
    ensures ToLower("x-auth-request-email") == ToLower(EMAIL)
  {
  }

  lemma GroupsHeader()
    ensures ToLower("x-auth-request-groups") == ToLower(GROUPS)
  {
  }

  lemma PolicyProtects(v: Values, r: Route)
    ensures Protects(v, r, Policy(v, r))
  {
    AccessTokenHeader();
    UserHeader();
    EmailHeader();
    GroupsHeader();
  }

  lemma RouteThenPolicy(own: seq<Manifest>, policies: seq<Manifest>)
    requires |own| <= 1 && |policies| <= 1
    requires own != [] ==> own[0].HTTPRoute?
    requires policies != [] ==> policies[0].SecurityPolicy?
    ensures Policies(own + policies) == policies && HttpRoutes(own + policies) == own
  {
    SelectConcat(own, policies, IsPolicy);
    SelectConcat(own, policies, IsRoute);
    assert own != [] ==> own[1..] == [];
    assert policies != [] ==> policies[1..] == [];
  }

  lemma EntryDocs(v: Values, r: Route, docs: seq<Manifest>)
    requires v.gateway.Some? && RouteDocs(v, r) == Success(docs)
    ensures if r.protected then |Policies(docs)| == 1 && Protects(v, r, Policies(docs)[0]) else Policies(docs) == []
    ensures if IsOwned(r) then |HttpRoutes(docs)| == 1 && Exposes(v, r, HttpRoutes(docs)[0]) else HttpRoutes(docs) == []
    ensures forall d | d in docs :: d.SecurityPolicy? || d.HTTPRoute?
  {
    var own := if r.Attached() then [] else OwnRouteDocs(v, r).value;
    var policies := if r.protected then [Policy(v, r)] else [];
    assert docs == own + policies;
    if !r.Attached() {
      OwnDocs(v, r, own);
    }
    PolicyProtects(v, r);
    RouteThenPolicy(own, policies);
  }

  lemma ProtectsEachConcat(v: Values, a: seq<Route>, p: seq<Manifest>, b: seq<Route>, q: seq<Manifest>)
    requires ProtectsEach(v, a, p) && ProtectsEach(v, b, q)
    ensures ProtectsEach(v, a + b, p + q)
  {
  }

  lemma ExposesEachConcat(v: Values, a: seq<Route>, p: seq<Manifest>, b: seq<Route>, q: seq<Manifest>)
    requires ExposesEach(v, a, p) && ExposesEach(v, b, q)
    ensures ExposesEach(v, a + b, p + q)
  {
  }

  lemma {:induction false} PoliciesInOrder(v: Values, routes: seq<Route>, docs: seq<Manifest>)
    requires v.gateway.Some? && AllRouteDocs(v, routes) == Success(docs)
    ensures ProtectsEach(v, Select(routes, IsProtected), Policies(docs))
  {
    if routes != [] {
      var first, rest := RouteDocs(v, routes[0]).value, AllRouteDocs(v, routes[1..]).value;
      var head := if IsProtected(routes[0]) then [routes[0]] else [];
      assert ProtectsEach(v, head, Policies(first)) by {
        EntryDocs(v, routes[0], first);
      }
      PoliciesInOrder(v, routes[1..], rest);
      SelectConcat(first, rest, IsPolicy);
      ProtectsEachConcat(v, head, Policies(first), Select(routes[1..], IsProtected), Policies(rest));
    }
  }

  lemma {:induction false} RoutesInOrder(v: Values, routes: seq<Route>, docs: seq<Manifest>)
    requires v.gateway.Some? && AllRouteDocs(v, routes) == Success(docs)
    ensures ExposesEach(v, Select(routes, IsOwned), HttpRoutes(docs))
  {
    if routes != [] {
      var first, rest := RouteDocs(v, routes[0]).value, AllRouteDocs(v, routes[1..]).value;
      var head := if IsOwned(routes[0]) then [routes[0]] else [];
      assert ExposesEach(v, head, HttpRoutes(first)) by {
        EntryDocs(v, routes[0], first);
      }
      RoutesInOrder(v, routes[1..], rest);
      SelectConcat(first, rest, IsRoute);
      ExposesEachConcat(v, head, HttpRoutes(first), Select(routes[1..], IsOwned), HttpRoutes(rest));
    }
  }

  lemma {:induction false} EntryKinds(v: Values, routes: seq<Route>, docs: seq<Manifest>)
    requires v.gateway.Some? && AllRouteDocs(v, routes) == Success(docs)
    ensures forall d | d in docs :: d.SecurityPolicy? || d.HTTPRoute?
  {
    if routes != [] {
      EntryDocs(v, routes[0], RouteDocs(v, routes[0]).value);
      EntryKinds(v, routes[1..], AllRouteDocs(v, routes[1..]).value);
    }
  }

  lemma {:induction false} SelectNone<T>(items: seq<T>, keep: T -> bool)
    requires forall x | x in items :: !keep(x)
    ensures Select(items, keep) == []
  {
    if items != [] {
      SelectNone(items[1..], keep);
    }
  }

  lemma SelectTwo<T>(a: T, b: T, keep: T -> bool)
    ensures Select([a], keep) == if keep(a) then [a] else []
    ensures Select([a, b], keep) == (if keep(a) then [a] else []) + (if keep(b) then [b] else [])
  {
    assert [a][1..] == [] && [a, b][1..] == [b] && [b][1..] == [];
  }

  lemma SelectMiddle<T>(head: seq<T>, middle: seq<T>, tail: seq<T>, keep: T -> bool)
    requires forall x | x in head :: !keep(x)
    requires forall x | x in tail :: !keep(x)
    ensures Select(head + middle + tail, keep) == Select(middle, keep)
  {
    SelectConcat(head + middle, tail, keep);
    SelectConcat(head, middle, keep);
    SelectNone(head, keep);
    SelectNone(tail, keep);
  }

  lemma InstallHasNoRoutes(v: Values)
    requires OidcDocs(v).Success? && StoreDocs(v).Success? && ProxyDocs(v).Success?
    ensures forall d | d in InstallDocs(v) :: !IsPolicy(d) && !IsRoute(d)
    ensures forall d | d in PolicyDocs(v) :: !IsPolicy(d) && !IsRoute(d)
  {
  }

  lemma RoutesAmong(head: seq<Manifest>, proxy: Manifest, entries: seq<Manifest>, tail: seq<Manifest>)
    requires proxy.HTTPRoute?
    requires forall d | d in head :: !IsPolicy(d) && !IsRoute(d)
    requires forall d | d in tail :: !IsPolicy(d) && !IsRoute(d)
    ensures Policies(head + [proxy] + entries + tail) == Policies(entries)
    ensures HttpRoutes(head + [proxy] + entries + tail) == [proxy] + HttpRoutes(entries)
  {
    assert head + [proxy] + entries + tail == head + ([proxy] + entries) + tail;
    SelectMiddle(head, [proxy] + entries, tail, IsPolicy);
    SelectMiddle(head, [proxy] + entries, tail, IsRoute);
    SelectConcat([proxy], entries, IsPolicy);
    SelectConcat([proxy], entries, IsRoute);
    assert [proxy][1..] == [];
  }

  /** The install's own documents hold no policy and one HTTPRoute, the proxy's. */
  lemma RenderedRoutes(v: Values, docs: seq<Manifest>) returns (entries: seq<Manifest>)
    requires Rendered(v, docs)
    ensures v.gateway.Some? && AllRouteDocs(v, Routes(v)) == Success(entries)
    ensures Policies(docs) == Policies(entries)
    ensures HttpRoutes(docs) == [ProxyRoute(v)] + HttpRoutes(entries)
  {
    entries := RenderParts(v, docs);
    InstallHasNoRoutes(v);
    RoutesAmong(InstallDocs(v), ProxyRoute(v), entries, PolicyDocs(v));
  }

  // ----- Coverage ---------------------------------------------------------------------------------

  /**
    For every route list that renders, policies correspond one to one and in order with the
    protected entries, and HTTPRoutes with the owned entries after the proxy's own.
   */
  lemma CoverageInOrder(v: Values, docs: seq<Manifest>)
    requires Rendered(v, docs)
    ensures v.gateway.Some? && ProtectsEach(v, Protected(v), Policies(docs))
    ensures HttpRoutes(docs) != [] && HttpRoutes(docs)[0] == ProxyRoute(v)
    ensures ExposesEach(v, Owned(v), HttpRoutes(docs)[1..])
  {
    var entries := RenderedRoutes(v, docs);
    PoliciesInOrder(v, Routes(v), entries);
    RoutesInOrder(v, Routes(v), entries);
  }

  /** Every rendered policy is some protected entry's. */
  lemma PolicyHasAnEntry(v: Values, docs: seq<Manifest>, policy: Manifest) returns (r: Route)
    requires Rendered(v, docs) && policy in docs && policy.SecurityPolicy?
    ensures r in Routes(v) && r.protected && Protects(v, r, policy)
  {
    CoverageInOrder(v, docs);
    SelectMembers(Routes(v), IsProtected);
    SelectMembers(docs, IsPolicy);
    var i :| 0 <= i < |Policies(docs)| && Policies(docs)[i] == policy;
    r := Protected(v)[i];
    assert r in Protected(v);
  }

  ghost predicate Distinct(docs: seq<Manifest>) {
    forall i, j | 0 <= i < j < |docs| :: docs[i].name != docs[j].name
  }

  ghost predicate DistinctNames(entries: seq<Route>) {
    forall i, j | 0 <= i < j < |entries| :: entries[i].name != entries[j].name
  }

  lemma DashedIsInjective(base: string, a: string, b: string)
    ensures Dashed(base, a) == Dashed(base, b) <==> a == b
  {
    assert Dashed(base, a)[|base| + 1..] == a && Dashed(base, b)[|base| + 1..] == b;
  }

  /** HTTPRoute names are unique exactly when the owned entries' names are, and none is "proxy". */
  lemma RouteNamesAreDistinct(v: Values, docs: seq<Manifest>)
    requires Rendered(v, docs)
    ensures Distinct(HttpRoutes(docs)) <==>
            DistinctNames(Owned(v)) && (forall i | 0 <= i < |Owned(v)| :: Owned(v)[i].name != PROXY_ROUTE)
  {
    CoverageInOrder(v, docs);
    var owned, routes, base := Owned(v), HttpRoutes(docs), BaseName(v);
    forall i | 0 <= i < |owned|
      ensures routes[i + 1].name == Dashed(base, owned[i].name)
    {
      assert Exposes(v, owned[i], routes[1..][i]);
    }
    forall i, j | 0 <= i < |owned| && 0 <= j < |owned|
      ensures routes[i + 1].name == routes[j + 1].name <==> owned[i].name == owned[j].name
    {
      DashedIsInjective(base, owned[i].name, owned[j].name);
    }
    forall i | 0 <= i < |owned|
      ensures routes[0].name == routes[i + 1].name <==> owned[i].name == PROXY_ROUTE
    {
      DashedIsInjective(base, owned[i].name, PROXY_ROUTE);
    }
    if Distinct(routes) {
      forall i, j | 0 <= i < j < |owned|
        ensures owned[i].name != owned[j].name
      {
        assert routes[i + 1].name != routes[j + 1].name;
      }
    } else {
      var i, j :| 0 <= i < j < |routes| && routes[i].name == routes[j].name;
      if i > 0 {
        assert routes[i] == routes[i - 1 + 1] && routes[j] == routes[j - 1 + 1];
      } else {
        assert routes[j] == routes[j - 1 + 1];
      }
    }
  }

  // ----- Which routes end up guarded ----------------------------------------------------------------

  /** Policy names are unique exactly when the protected entries' names are. */
  lemma PolicyNamesAreDistinct(v: Values, docs: seq<Manifest>)
    requires Rendered(v, docs)
    ensures Distinct(Policies(docs)) <==> DistinctNames(Protected(v))
  {
    CoverageInOrder(v, docs);
    var entries, policies := Protected(v), Policies(docs);
    forall i, j | 0 <= i < |entries| && 0 <= j < |entries|
      ensures policies[i].name == policies[j].name <==> entries[i].name == entries[j].name
    {
      assert Protects(v, entries[i], policies[i]) && Protects(v, entries[j], policies[j]);
      DashedIsInjective(BaseName(v), entries[i].name, entries[j].name);
    }
  }

  /** Applying manifests of one kind in order leaves one object for each name: the last. */
  ghost predicate Applied(docs: seq<Manifest>, i: nat) {
    i < |docs| && forall j | i < j < |docs| :: docs[j].name != docs[i].name
  }

  /** Policy `i` is still there once all are applied, and is bound to this HTTPRoute. */
  ghost predicate Binds(docs: seq<Manifest>, i: nat, route: string) {
    Applied(Policies(docs), i) && Policies(docs)[i].SecurityPolicy? && Policies(docs)[i].target == route
  }

  ghost predicate Guarded(docs: seq<Manifest>, route: string) {
    exists i: nat :: Binds(docs, i, route)
  }

  /** The route is guarded, and by no policy with another posture: the groups rule, or any login. */
  ghost predicate GuardedAs(docs: seq<Manifest>, route: string, authenticatedOnly: bool) {
    && Guarded(docs, route)
    && forall i: nat | Binds(docs, i, route) :: Policies(docs)[i].jwt.None? <==> authenticatedOnly
  }

  /** The proxy's route is open, every protected entry's is guarded as it asks, and no other owned one is. */
  ghost predicate ProtectsExactly(v: Values, docs: seq<Manifest>) {
    && !Guarded(docs, Dashed(BaseName(v), PROXY_ROUTE))
    && (forall r | r in Routes(v) && r.protected :: GuardedAs(docs, Target(v, r), r.authenticatedOnly))
    && (forall r | r in Routes(v) && !r.Attached() && !r.protected :: !Guarded(docs, Target(v, r)))
  }

  /** A route that must stay open: the proxy's, or an unprotected owned entry's. */
  ghost predicate MustStayOpen(v: Values, suffix: string) {
    suffix == PROXY_ROUTE || exists u :: u in Routes(v) && !u.Attached() && !u.protected && u.name == suffix
  }

  /** The entry is named like the HTTPRoute {base}-{suffix}, or attaches to it. */
  predicate Targets(v: Values, r: Route, suffix: string) {
    if r.Attached() then r.targetRouteName == Dashed(BaseName(v), suffix) else r.name == suffix
  }

  /** No protected entry is named like a route that must stay open, or attaches to one. */
  ghost predicate NoStrayTarget(v: Values) {
    forall r, suffix | r in Routes(v) && r.protected && MustStayOpen(v, suffix) :: !Targets(v, r, suffix)
  }

  /** No later entry of the list has this one's name. */
  ghost predicate LastOfName(entries: seq<Route>, k: nat) {
    k < |entries| && forall j | k < j < |entries| :: entries[j].name != entries[k].name
  }

  /** Protected entry `k` is the last of its name, and this is its HTTPRoute. */
  ghost predicate LastFor(v: Values, k: nat, route: string) {
    LastOfName(Protected(v), k) && Target(v, Protected(v)[k]) == route
  }

  /** Every protected entry's route is also the route of a protected entry that is the last of its name. */
  ghost predicate NoTargetLost(v: Values) {
    forall r | r in Routes(v) && r.protected :: exists k: nat :: LastFor(v, k, Target(v, r))
  }

  /** Such entries ask for what it asks: the groups rule, or any login. */
  ghost predicate NoPostureLost(v: Values) {
    forall r, k: nat | r in Routes(v) && r.protected && LastFor(v, k, Target(v, r)) ::
      Protected(v)[k].authenticatedOnly == r.authenticatedOnly
  }

  lemma AppliedIsLastOfName(v: Values, entries: seq<Route>, policies: seq<Manifest>, i: nat)
    requires ProtectsEach(v, entries, policies) && i < |entries|
    ensures Applied(policies, i) <==> LastOfName(entries, i)
    ensures policies[i].SecurityPolicy? && policies[i].target == Target(v, entries[i])
    ensures policies[i].jwt.None? <==> entries[i].authenticatedOnly
  {
    assert Protects(v, entries[i], policies[i]);
    forall j | 0 <= j < |entries|
      ensures policies[j].name == policies[i].name <==> entries[j].name == entries[i].name
    {
      assert Protects(v, entries[j], policies[j]);
      DashedIsInjective(BaseName(v), entries[j].name, entries[i].name);
    }
  }

  /** A policy binds a route exactly when its entry is the last of its name and has it as target. */
  lemma BindsByEntry(v: Values, docs: seq<Manifest>, i: nat, route: string)
    requires Rendered(v, docs)
    ensures Binds(docs, i, route) <==> LastFor(v, i, route)
    ensures Binds(docs, i, route) ==> (Policies(docs)[i].jwt.None? <==> Protected(v)[i].authenticatedOnly)
  {
    CoverageInOrder(v, docs);
    if i < |Protected(v)| {
      AppliedIsLastOfName(v, Protected(v), Policies(docs), i);
    }
  }

  lemma GuardedByEntry(v: Values, docs: seq<Manifest>, route: string)
    requires Rendered(v, docs)
    ensures Guarded(docs, route) <==> exists k: nat :: LastFor(v, k, route)
  {
    forall i: nat {
      BindsByEntry(v, docs, i, route);
    }
  }

  lemma GuardedAsByEntry(v: Values, docs: seq<Manifest>, route: string, authenticatedOnly: bool)
    requires Rendered(v, docs)
    ensures GuardedAs(docs, route, authenticatedOnly) <==>
            && (exists k: nat :: LastFor(v, k, route))
            && forall k: nat | LastFor(v, k, route) :: Protected(v)[k].authenticatedOnly == authenticatedOnly
  {
    forall i: nat {
      BindsByEntry(v, docs, i, route);
    }
  }

  lemma TargetIs(v: Values, r: Route, suffix: string)
    ensures Target(v, r) == Dashed(BaseName(v), suffix) <==> Targets(v, r, suffix)
  {
    DashedIsInjective(BaseName(v), r.name, suffix);
  }

  /**
    The proxy's route is behind a policy exactly when a protected entry that is the last of its name
    is named "proxy" or attaches to it.
   */
  lemma ProxyIsGuardedExactlyWhen(v: Values, docs: seq<Manifest>)
    requires Rendered(v, docs)
    ensures Guarded(docs, Dashed(BaseName(v), PROXY_ROUTE)) <==>
            exists k: nat :: LastOfName(Protected(v), k) && Targets(v, Protected(v)[k], PROXY_ROUTE)
  {
    var route := Dashed(BaseName(v), PROXY_ROUTE);
    GuardedByEntry(v, docs, route);
    forall k: nat | LastOfName(Protected(v), k)
      ensures LastFor(v, k, route) <==> Targets(v, Protected(v)[k], PROXY_ROUTE)
    {
      TargetIs(v, Protected(v)[k], PROXY_ROUTE);
    }
    if k: nat :| LastFor(v, k, route) {
      assert LastOfName(Protected(v), k);
    }
  }

  /** While no target is lost, nothing is guarded but what some protected entry targets. */
  lemma GuardedByAny(v: Values, docs: seq<Manifest>, suffix: string)
    requires Rendered(v, docs) && NoTargetLost(v)
    ensures Guarded(docs, Dashed(BaseName(v), suffix)) <==>
            exists r :: r in Routes(v) && r.protected && Targets(v, r, suffix)
  {
    var route := Dashed(BaseName(v), suffix);
    GuardedByEntry(v, docs, route);
    SelectMembers(Routes(v), IsProtected);
    if k: nat :| LastFor(v, k, route) {
      assert Protected(v)[k] in Protected(v);
      TargetIs(v, Protected(v)[k], suffix);
    }
    if r :| r in Routes(v) && r.protected && Targets(v, r, suffix) {
      TargetIs(v, r, suffix);
    }
  }

  lemma NothingLostExactlyWhen(v: Values, docs: seq<Manifest>)
    requires Rendered(v, docs)
    ensures (forall r | r in Routes(v) && r.protected :: GuardedAs(docs, Target(v, r), r.authenticatedOnly)) <==>
            NoTargetLost(v) && NoPostureLost(v)
  {
    forall r | r in Routes(v) && r.protected {
      GuardedAsByEntry(v, docs, Target(v, r), r.authenticatedOnly);
    }
  }

  lemma NothingStraysExactlyWhen(v: Values, docs: seq<Manifest>)
    requires Rendered(v, docs) && NoTargetLost(v)
    ensures (forall suffix | MustStayOpen(v, suffix) :: !Guarded(docs, Dashed(BaseName(v), suffix))) <==>
            NoStrayTarget(v)
  {
    forall suffix {
      GuardedByAny(v, docs, suffix);
    }
  }

  /** The routes that must stay open are the proxy's and the unprotected owned entries'. */
  lemma OpenRoutes(v: Values, docs: seq<Manifest>)
    ensures (forall suffix | MustStayOpen(v, suffix) :: !Guarded(docs, Dashed(BaseName(v), suffix))) <==>
            && !Guarded(docs, Dashed(BaseName(v), PROXY_ROUTE))
            && forall r | r in Routes(v) && !r.Attached() && !r.protected :: !Guarded(docs, Target(v, r))
  {
    assert MustStayOpen(v, PROXY_ROUTE);
    forall r | r in Routes(v) && !r.Attached() && !r.protected
      ensures MustStayOpen(v, r.name) && Target(v, r) == Dashed(BaseName(v), r.name)
    {
    }
  }

  /**
    Protection is exact if and only if no policy strays to a route that must stay open, by its
    entry's name or by its target; and for every protected entry, the protected entries that are the
    last of their name include one with its route, and all of those ask for what it asks.
   */
  lemma ProtectionIsExact(v: Values, docs: seq<Manifest>)
    requires Rendered(v, docs)
    ensures ProtectsExactly(v, docs) <==> NoStrayTarget(v) && NoTargetLost(v) && NoPostureLost(v)
  {
    NothingLostExactlyWhen(v, docs);
    if NoTargetLost(v) {
      NothingStraysExactlyWhen(v, docs);
      OpenRoutes(v, docs);
    }
  }

  lemma LastWithDistinctNames(v: Values, r: Route) returns (k: nat)
    requires DistinctNames(Protected(v)) && r in Routes(v) && r.protected
    ensures LastFor(v, k, Target(v, r)) && Protected(v)[k] == r
  {
    SelectMembers(Routes(v), IsProtected);
    assert r in Protected(v);
    k :| k < |Protected(v)| && Protected(v)[k] == r;
  }

  lemma DistinctNamesLoseNoTarget(v: Values)
    requires DistinctNames(Protected(v))
    ensures NoTargetLost(v)
  {
    forall r | r in Routes(v) && r.protected
      ensures exists k: nat :: LastFor(v, k, Target(v, r))
    {
      var k := LastWithDistinctNames(v, r);
    }
  }

  /** Protected entries that share a route ask for the same. */
  ghost predicate PosturesAgree(v: Values) {
    forall r, q | r in Routes(v) && q in Routes(v) && r.protected && q.protected && Target(v, r) == Target(v, q) ::
      r.authenticatedOnly == q.authenticatedOnly
  }

  /**
    With distinct names of protected entries no target is lost, and no posture is exactly when
    entries that share a route ask for the same.
   */
  lemma DistinctNamesLoseNothing(v: Values)
    requires DistinctNames(Protected(v))
    ensures NoTargetLost(v)
    ensures NoPostureLost(v) <==> PosturesAgree(v)
  {
    DistinctNamesLoseNoTarget(v);
    if !PosturesAgree(v) {
      var r, q :| r in Routes(v) && q in Routes(v) && r.protected && q.protected && Target(v, r) == Target(v, q)
                  && r.authenticatedOnly != q.authenticatedOnly;
      var k := LastWithDistinctNames(v, q);
      assert LastFor(v, k, Target(v, r));
    } else {
      SelectMembers(Routes(v), IsProtected);
      forall r, k: nat | r in Routes(v) && r.protected && LastFor(v, k, Target(v, r))
        ensures Protected(v)[k].authenticatedOnly == r.authenticatedOnly
      {
        assert Protected(v)[k] in Protected(v);
      }
    }
  }
}
