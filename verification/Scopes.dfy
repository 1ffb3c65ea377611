/** The OAuth scopes the proxy requests, against what the rendered rules need (_exposure.tpl). */
module Scopes {
  import opened Text
  import opened Values
  import opened Exposure
  import opened Protection
  import opened Closure

  /** A scope list is words separated by single spaces (section 3.3 of RFC 6749). */
  function Words(scope: string): seq<string> {
    Split(scope, ' ')
  }

  lemma WordAppended(scope: string, word: string)
    requires Without(word, ' ')
    ensures Words(scope + " " + word) == Words(scope) + [word]
  {
    assert scope + " " + word == scope + [' '] + word;
    SplitConcat(scope, ' ', word);
    SplitWithout(word, ' ');
  }

  lemma TwoWords(a: string, b: string)
    requires Without(a, ' ') && Without(b, ' ')
    ensures Words(a + " " + b) == [a, b]
  {
    SplitWithout(a, ' ');
    WordAppended(a, b);
  }

  lemma ThreeWords(s: string, a: string, b: string, c: string)
    requires s == a + " " + b + " " + c && Without(a, ' ') && Without(b, ' ') && Without(c, ' ')
    ensures Words(s) == [a, b, c]
  {
    TwoWords(a, b);
    WordAppended(a + " " + b, c);
  }

  lemma ExtendedWords(base: string, groups: bool, refresh: bool)
    ensures Words(ExtendedScope(base, groups, refresh)) ==
            Words(base) + (if groups then ["groups"] else []) + (if refresh then [OFFLINE_ACCESS] else [])
  {
    assert base + " groups" == base + " " + "groups";
    WordAppended(base, "groups");
    WordAppended(if groups then base + " groups" else base, OFFLINE_ACCESS);
  }

  lemma BaseWords(openid: string, profile: string, email: string)
    requires openid == "openid" && profile == "profile" && email == "email"
    ensures "openid profile email" == openid + " " + profile + " " + email
    ensures Without(openid, ' ') && Without(profile, ' ') && Without(email, ' ')
  {
  }

  lemma DefaultWords(v: Values)
    ensures Words(DefaultScope(v)) ==
            ["openid", "profile", "email"]
            + (if v.groups != [] then ["groups"] else [])
            + (if v.sessionRefresh != "" then [OFFLINE_ACCESS] else [])
  {
    BaseWords("openid", "profile", "email");
    ThreeWords("openid profile email", "openid", "profile", "email");
    ExtendedWords("openid profile email", v.groups != [], v.sessionRefresh != "");
  }

  lemma DefaultContainsOfflineAccess(v: Values)
    requires v.sessionRefresh != ""
    ensures Contains(OFFLINE_ACCESS, DefaultScope(v))
  {
    var scope := DefaultScope(v);
    assert scope[|scope| - |OFFLINE_ACCESS|..] == OFFLINE_ACCESS;
    assert OccursAt(OFFLINE_ACCESS, scope, |scope| - |OFFLINE_ACCESS|);
  }

  lemma DefaultRequests(v: Values)
    ensures OFFLINE_ACCESS in Words(DefaultScope(v)) <==> v.sessionRefresh != ""
    ensures "groups" in Words(DefaultScope(v)) <==> v.groups != []
  {
    DefaultWords(v);
  }

  /** The scope text of a rendered configuration. */
  lemma RenderedScope(v: Values, docs: seq<Manifest>, d: Manifest)
    requires Rendered(v, docs) && d in docs && d.ConfigMap?
    ensures d.cfg.scope == Default(v.identity.scopes, DefaultScope(v)) && d.cfg.refresh == v.sessionRefresh
    ensures v.identity.scopes == "" || v.sessionRefresh == "" || Contains(OFFLINE_ACCESS, v.identity.scopes)
  {
    var entries := RenderParts(v, docs);
    KindsOfDocs(v, docs, entries);
  }

  /**
    A rendered refresh interval comes with offline_access somewhere in the scope text; and with the
    scopes left to the chart, offline_access and groups are requested as whole scopes exactly when
    refresh and the allow-list are in use.
   */
  lemma ScopesAreSound(v: Values, docs: seq<Manifest>, d: Manifest)
    requires Rendered(v, docs) && d in docs && d.ConfigMap?
    ensures d.cfg.refresh != "" ==> Contains(OFFLINE_ACCESS, d.cfg.scope)
    ensures v.identity.scopes == "" ==>
              && (OFFLINE_ACCESS in Words(d.cfg.scope) <==> d.cfg.refresh != "")
              && ("groups" in Words(d.cfg.scope) <==> v.groups != [])
  {
    RenderedScope(v, docs, d);
    DefaultRequests(v);
    if v.sessionRefresh != "" {
      DefaultContainsOfflineAccess(v);
    }
  }

  lemma {:induction false} AllowListPresent(v: Values, routes: seq<Route>)
    requires Unguarded(v, routes).None?
    ensures forall r | r in routes && r.protected && !r.authenticatedOnly :: v.groups != []
  {
    if routes != [] {
      AllowListPresent(v, routes[1..]);
    }
  }

  /** Every rendered groups rule allows someone, and its claim is asked for unless the scopes are overridden. */
  lemma GroupRulesAreSatisfiable(v: Values, docs: seq<Manifest>, policy: Manifest, config: Manifest)
    requires Rendered(v, docs) && policy in docs && policy.SecurityPolicy? && policy.jwt.Some?
    requires config in docs && config.ConfigMap?
    ensures policy.jwt.value.groups != []
    ensures v.identity.scopes == "" ==> "groups" in Words(config.cfg.scope)
  {
    var _ := RenderParts(v, docs);
    ScopesAreSound(v, docs, config);
    AllowListPresent(v, Routes(v));
    var r := PolicyHasAnEntry(v, docs, policy);
  }

  // ----- What the guard on overridden scopes misses ------------------------------------------------

  /** `offline_access` occurs in the text with no other character touching it. */
  ghost predicate OccursFree(scope: string) {
    exists i :: OccursAt(OFFLINE_ACCESS, scope, i) && !GluedAt(OFFLINE_ACCESS, scope, ' ', i)
  }

  lemma RequestedWhereFree(scope: string)
    ensures OFFLINE_ACCESS in Words(scope) <==> OccursFree(scope)
  {
    PartsAreFreeOccurrences(OFFLINE_ACCESS, scope, ' ');
  }

  /**
    When a refresh token is really requested: the chart chose the scopes, or somewhere in the given
    text the letters stand between spaces or ends.
   */
  lemma RefreshWorksExactlyWhen(v: Values, docs: seq<Manifest>, d: Manifest)
    requires Rendered(v, docs) && d in docs && d.ConfigMap? && v.sessionRefresh != ""
    ensures OFFLINE_ACCESS in Words(d.cfg.scope) <==> v.identity.scopes == "" || OccursFree(v.identity.scopes)
  {
    RenderedScope(v, docs, d);
    DefaultRequests(v);
    RequestedWhereFree(v.identity.scopes);
  }

  /**
    The guard looks for the letters, not for the scope. It passes a refresh that cannot work exactly
    when the letters occur in the given text and every occurrence is part of a longer word.
   */
  lemma GuardPassesInVain(v: Values)
    requires v.identity.scopes != "" && v.sessionRefresh != ""
    ensures Cfg(v).Success? && OFFLINE_ACCESS !in Words(Cfg(v).value.scope) <==>
            && (exists i :: OccursAt(OFFLINE_ACCESS, v.identity.scopes, i))
            && forall i | OccursAt(OFFLINE_ACCESS, v.identity.scopes, i) ::
                 GluedAt(OFFLINE_ACCESS, v.identity.scopes, ' ', i)
  {
    RequestedWhereFree(v.identity.scopes);
    if i :| OccursAt(OFFLINE_ACCESS, v.identity.scopes, i) {
      assert Contains(OFFLINE_ACCESS, v.identity.scopes);
    }
  }

  /** One such family: the only occurrence starts a longer word. */
  lemma GuardAcceptsALongerWord(v: Values, word: string)
    requires v.identity.scopes == "openid " + word && v.sessionRefresh != ""
    requires Without(word, ' ') && OFFLINE_ACCESS < word
    ensures Cfg(v).Success? && Cfg(v).value.refresh != "" && OFFLINE_ACCESS !in Words(Cfg(v).value.scope)
  {
    var first := v.identity.scopes[..6];
    assert v.identity.scopes == first + " " + word;
    assert OccursAt(OFFLINE_ACCESS, v.identity.scopes, 7);
    TwoWords(first, word);
    assert first[0] != OFFLINE_ACCESS[0] || first[1] != OFFLINE_ACCESS[1];
  }
}
