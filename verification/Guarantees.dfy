/** What callers of the runtime can rely on in every run (verify.go, keyset.go, userinfo.go). */
module Guarantees {
  import opened Wrappers
  import opened Text
  import opened Sources
  import opened Claims
  import opened Adapters
  import opened KeySets
  import opened Userinfo
  import opened Verifier
  import opened Runtime

  // ----- Refinement of a verifier with no fallbacks ------------------------------------------

  /** Same success or error, same everything but the display pair, and that too if the token had one. */
  predicate Refines(answer: Result<Identity, AuthError>, bare: Result<Identity, AuthError>) {
    match (answer, bare)
    case (Failure(e), Failure(e')) => e == e'
    case (Success(id), Success(id')) =>
      && Core(id) == Core(id')
      && (!Nameless(id') ==> id == id')
    case _ => false
  }

  /**
    Whatever the fallbacks, the cache, the fetches and the other calls do, a finished call answers
    as a verifier without fallbacks would with some key set that was current after the call came in,
    at some time since.
   */
  lemma AnswersRefineBareVerifier(r: Run, id: nat)
    requires r.Valid() && id in r.End().calls && r.End().calls[id].phase.Done?
    ensures var s, c := r.End(), r.End().calls[id];
            exists v: nat, at: int ::
              && c.arrival.version <= v < |s.adopted| && c.arrival.at <= at <= s.clock
              && Refines(c.phase.result, Bare(r.cfg, c.headers, s.adopted[v], at))
  {
    r.Holds(|r.actions|);
    var s, c := r.End(), r.End().calls[id];
    assert CallOk(r.cfg, s, c);
    if c.phase.result == Failure(NoCredential) {
      assert Refines(c.phase.result, Bare(r.cfg, c.headers, s.adopted[c.arrival.version], c.arrival.at));
    } else {
      assert Refines(c.phase.result, Bare(r.cfg, c.headers, s.adopted[c.access.view.version], c.access.at));
    }
  }

  lemma RefinementDecidesAlike(answer: Result<Identity, AuthError>, bare: Result<Identity, AuthError>)
    requires Refines(answer, bare)
    ensures forall enabled: bool, roles: seq<string> ::
              && Guard(answer, enabled, roles) == Guard(bare, enabled, roles)
              && OpenGuard(answer, enabled, roles) == OpenGuard(bare, enabled, roles)
  {
    if answer.Success? {
      assert Core(answer.value).roles == answer.value.roles && Core(bare.value).roles == bare.value.roles;
    }
  }

  /**
    So no fallback, cache entry, fetch or other call ever changes who is let in: whatever roles a
    guard asks for, it decides on the answer as on that verifier's.
   */
  lemma AdmissionsAreTheBareVerifiers(r: Run, id: nat) returns (v: nat, at: int)
    requires r.Valid() && id in r.End().calls && r.End().calls[id].phase.Done?
    ensures var s, c := r.End(), r.End().calls[id];
            && c.arrival.version <= v < |s.adopted| && c.arrival.at <= at <= s.clock
            && var bare := Bare(r.cfg, c.headers, s.adopted[v], at);
               forall enabled: bool, roles: seq<string> ::
                 && Guard(c.phase.result, enabled, roles) == Guard(bare, enabled, roles)
                 && OpenGuard(c.phase.result, enabled, roles) == OpenGuard(bare, enabled, roles)
  {
    AnswersRefineBareVerifier(r, id);
    var s, c := r.End(), r.End().calls[id];
    v, at :|
      && c.arrival.version <= v < |s.adopted| && c.arrival.at <= at <= s.clock
      && Refines(c.phase.result, Bare(r.cfg, c.headers, s.adopted[v], at));
    RefinementDecidesAlike(c.phase.result, Bare(r.cfg, c.headers, s.adopted[v], at));
  }

  /** `Bare` is this very verifier with both fallbacks turned off. */
  lemma BareIsWithoutFallbacks(cfg: Config, h: Headers, keys: Jwks, cache: Cache, w: Weather)
    ensures Alone(cfg.(userinfo := false, displayCookie := ""), h, keys, cache, w) ==
            (Bare(cfg, h, keys, w.verifyAt), cache)
  {
    var off := cfg.(userinfo := false, displayCookie := "");
    assert Bare(off, h, keys, w.verifyAt) == Bare(cfg, h, keys, w.verifyAt);
  }

  // ----- Where an identity comes from ----------------------------------------------------------

  /** All of it but the display pair is read off a verified token, the one it carries. */
  ghost predicate IsOf(cfg: Config, keys: Jwks, h: Headers, at: int, id: Identity) {
    var token := Parse(cfg, keys, id.token, at);
    && Extracted(cfg.source, h) == Some(id.token) && token.Some?
    && id.subject == token.value.subject && id.claims == token.value.fields
    && var roles := Default(cfg.mapper.rolesClaim, "groups");
       forall r :: r in id.roles <==> roles in token.value.fields && r in RoleSet(token.value.fields[roles])
  }

  /** The pair the access token itself carries, under the configured claim names or the standard ones. */
  ghost predicate AccessShows(cfg: Config, keys: Jwks, h: Headers, at: int, id: Identity) {
    && IsOf(cfg, keys, h, at, id)
    && var token := Parse(cfg, keys, id.token, at).value;
       && id.name == StringClaim(token, Default(cfg.mapper.nameClaim, "name"))
       && id.email == StringClaim(token, Default(cfg.mapper.emailClaim, "email"))
  }

  lemma BareIdentity(cfg: Config, h: Headers, keys: Jwks, at: int)
    requires Bare(cfg, h, keys, at).Success?
    ensures AccessShows(cfg, keys, h, at, Bare(cfg, h, keys, at).value)
  {
    var id := Bare(cfg, h, keys, at).value;
    var token, roles := Parse(cfg, keys, id.token, at).value, Default(cfg.mapper.rolesClaim, "groups");
    if roles in token.fields {
      forall r {
        StringsAreTheRoleSet(token.fields[roles], r);
      }
    }
  }

  /**
    A returned (name, email) pair comes whole from one source: the verified access token, a cookie
    token of the same subject verified with keys no older, or an answer userinfo gave for that
    subject. The other fields are those of the verified access token in every case.
   */
  lemma DisplayPairHasOneSource(r: Run, id: nat) returns (v: nat, at: int)
    requires r.Valid() && id in r.End().calls
    requires var p := r.End().calls[id].phase; p.Done? && p.result.Success?
    ensures var s, c := r.End(), r.End().calls[id];
            var identity := c.phase.result.value;
            && c.arrival.version <= v < |s.adopted| && c.arrival.at <= at <= s.clock
            && IsOf(r.cfg, s.adopted[v], c.headers, at, identity)
            && (|| AccessShows(r.cfg, s.adopted[v], c.headers, at, identity)
                || FromCookie(r.cfg, s, c.headers, v, identity)
                || FromUserinfo(r.cfg, s, identity))
  {
    r.Holds(|r.actions|);
    var s, c := r.End(), r.End().calls[id];
    assert CallOk(r.cfg, s, c);
    v, at := c.access.view.version, c.access.at;
    BareIdentity(r.cfg, c.headers, s.adopted[v], at);
  }

  // ----- The userinfo cache ---------------------------------------------------------------------

  /** Every entry of every reachable cache is an answer for its own subject. */
  lemma CacheHoldsOwnAnswers(r: Run, sub: string)
    requires r.Valid() && sub in r.End().cache
    ensures var e := r.End().cache[sub];
            Answer(sub, e.name, e.email) in r.End().answers && e.fetchedAt <= r.End().clock
  {
    r.Holds(|r.actions|);
  }

  /** An entry is never lost, and never replaced by an older one. */
  lemma {:induction false} EntriesOnlyGetNewer(r: Run, i: nat, j: nat)
    requires r.Valid() && i <= j <= |r.actions|
    ensures Grows(r.At(i), r.At(j))
  {
    if i < j {
      EntriesOnlyGetNewer(r, i, j - 1);
      r.Holds(j - 1);
      r.Steps(j - 1);
      NextGrows(r.cfg, r.At(j - 1), r.actions[j - 1]);
    }
  }

  /** A call served from the cache uses an entry of its subject of age at least 0 and below the TTL. */
  lemma HitsAreFresh(r: Run, i: nat, id: nat)
    requires r.Valid() && i < |r.actions| && r.actions[i].Advance? && r.actions[i].id == id
    requires id in r.At(i).calls && r.At(i).calls[id].phase.Deciding? && r.At(i + 1).calls[id].phase.Done?
    ensures var s, c, c' := r.At(i), r.At(i).calls[id], r.At(i + 1).calls[id];
            && c.phase.seen.Some?
            && 0 <= s.clock - c.phase.seen.value.fetchedAt < TTL
            && c'.phase.result == Success(Showing(c.identity, c.phase.seen.value.name, c.phase.seen.value.email))
            && FromUserinfo(r.cfg, s, c'.phase.result.value)
  {
    r.Holds(i);
    r.Steps(i);
    assert CallOk(r.cfg, r.At(i), r.At(i).calls[id]);
  }

  // ----- The key set ----------------------------------------------------------------------------

  predicate EndsRefresh(s: State, a: Action) {
    a.EndRefresh? && s.refresher.Downloading?
  }

  /** The outcomes of the refreshes that have finished by action `i`, in order. */
  function Finished(r: Run, i: nat): seq<JwksOutcome>
    requires r.Valid() && i <= |r.actions|
  {
    if i == 0 then []
    else if EndsRefresh(r.At(i - 1), r.actions[i - 1]) then Finished(r, i - 1) + [r.actions[i - 1].fetched]
    else Finished(r, i - 1)
  }

  /** The set that is current, or about to be. */
  function Latest(s: State): Jwks {
    if s.refresher.Adopting? then s.refresher.keys else s.keys
  }

  lemma LatestStep(cfg: Config, s: State, a: Action)
    requires |s.adopted| > 0
    ensures Latest(Next(cfg, s, a)) == if EndsRefresh(s, a) then Refreshed(s.keys, a.fetched) else Latest(s)
  {
  }

  lemma KeysAreNewest(r: Run, i: nat)
    requires r.Valid() && i <= |r.actions|
    ensures r.At(i).keys != [] && r.At(i).keys == r.At(i).adopted[|r.At(i).adopted| - 1]
  {
    r.Holds(i);
  }

  lemma {:induction false} LatestIsLastUsable(r: Run, i: nat)
    requires r.Valid() && i <= |r.actions|
    ensures LastUsable(r.first.keys, Finished(r, i)) == Latest(r.At(i))
    ensures r.At(i).refresher.Adopting? ==>
              && Finished(r, i) != [] && Finished(r, i)[|Finished(r, i)| - 1].Usable()
              && LastUsable(r.first.keys, Finished(r, i)[..|Finished(r, i)| - 1]) == r.At(i).keys
  {
    if i > 0 {
      LatestIsLastUsable(r, i - 1);
      r.Steps(i - 1);
      LatestStep(r.cfg, r.At(i - 1), r.actions[i - 1]);
      var before := Finished(r, i - 1);
      if EndsRefresh(r.At(i - 1), r.actions[i - 1]) {
        assert Finished(r, i)[..|before|] == before;
      }
    }
  }

  /**
    In every reachable state the key set is not empty and is the last one fetched with success:
    what the refresh loop leaves after the refreshes that have finished, or, in the moment between
    the end of a successful fetch and the swap, after all of them but that one.
   */
  lemma KeySetIsLastFetched(r: Run, i: nat)
    requires r.Valid() && i <= |r.actions|
    ensures r.At(i).keys != [] && r.At(i).keys == r.At(i).adopted[|r.At(i).adopted| - 1]
    ensures !r.At(i).refresher.Adopting? ==> r.At(i).keys == LastUsable(r.first.keys, Finished(r, i))
    ensures r.At(i).refresher.Adopting? ==>
              && Finished(r, i) != [] && Finished(r, i)[|Finished(r, i)| - 1].Usable()
              && r.At(i).keys == LastUsable(r.first.keys, Finished(r, i)[..|Finished(r, i)| - 1])
              && r.At(i).refresher.keys == LastUsable(r.first.keys, Finished(r, i))
  {
    KeysAreNewest(r, i);
    LatestIsLastUsable(r, i);
  }

  /** A stretch of failed refreshes leaves the verdict on every token at every time as it was. */
  lemma {:induction false} FailedRefreshesChangeNoVerdict(r: Run, i: nat, j: nat, raw: string, now: int)
    requires r.Valid() && i <= j <= |r.actions| && !r.At(i).refresher.Adopting?
    requires forall k | i <= k < j && r.actions[k].EndRefresh? :: !r.actions[k].fetched.Usable()
    ensures !r.At(j).refresher.Adopting? && r.At(j).keys == r.At(i).keys
    ensures Parse(r.cfg, r.At(j).keys, raw, now) == Parse(r.cfg, r.At(i).keys, raw, now)
  {
    if i < j {
      FailedRefreshesChangeNoVerdict(r, i, j - 1, raw, now);
      r.Steps(j - 1);
    }
  }

  /** A call checks its cookie against keys no older in the history than those it checked its token with. */
  lemma CookieKeysAreNoOlder(r: Run, i: nat, id: nat)
    requires r.Valid() && i <= |r.actions|
    requires id in r.At(i).calls && r.At(i).calls[id].phase.VerifyingCookie?
    ensures var s, c := r.At(i), r.At(i).calls[id];
            && c.access.view.version <= c.phase.view.version < |s.adopted|
            && c.access.view.keys == s.adopted[c.access.view.version]
            && c.phase.view.keys == s.adopted[c.phase.view.version]
            && Bare(r.cfg, c.headers, c.access.view.keys, c.access.at).Success?
  {
    r.Holds(i);
    assert CallOk(r.cfg, r.At(i), r.At(i).calls[id]);
  }

  // ----- The methods are runs without interleaving ----------------------------------------------

  /** An action of one call on its own: time passing, or its next step. */
  predicate Own(a: Action, id: nat) {
    a.Tick? || (a.Advance? && a.id == id)
  }

  function Play(cfg: Config, s: State, actions: seq<Action>): (s': State)
    requires |s.adopted| > 0
    ensures |s'.adopted| > 0
    decreases |actions|
  {
    if actions == [] then s else Play(cfg, Next(cfg, s, actions[0]), actions[1..])
  }

  /** Call `id`, undisturbed, can take the runtime from `s` to `s'`. */
  ghost predicate Leads(cfg: Config, s: State, id: nat, s': State)
    requires |s.adopted| > 0
  {
    exists actions: seq<Action> :: (forall a | a in actions :: Own(a, id)) && Play(cfg, s, actions) == s'
  }

  lemma {:induction false} PlayOneMore(cfg: Config, s: State, actions: seq<Action>, a: Action)
    requires |s.adopted| > 0
    ensures Play(cfg, s, actions + [a]) == Next(cfg, Play(cfg, s, actions), a)
    decreases |actions|
  {
    if actions == [] {
      assert ([a] + [])[1..] == [] && actions + [a] == [a];
    } else {
      assert (actions + [a])[1..] == actions[1..] + [a];
      PlayOneMore(cfg, Next(cfg, s, actions[0]), actions[1..], a);
    }
  }

  /** One more step, at time `now`. */
  lemma StepAt(cfg: Config, s: State, id: nat, mid: State, now: int, outcome: FetchOutcome) returns (s': State)
    requires |s.adopted| > 0 && |mid.adopted| > 0 && id in mid.calls
    requires Leads(cfg, s, id, mid) && mid.clock <= now
    ensures s' == Next(cfg, mid.(clock := now), Advance(id, outcome))
    ensures |s'.adopted| > 0 && id in s'.calls && Leads(cfg, s, id, s')
  {
    var actions :| (forall a | a in actions :: Own(a, id)) && Play(cfg, s, actions) == mid;
    var tick, step := Tick(now - mid.clock), Advance(id, outcome);
    PlayOneMore(cfg, s, actions, tick);
    PlayOneMore(cfg, s, actions + [tick], step);
    s' := Next(cfg, mid.(clock := now), step);
    assert forall a | a in actions + [tick] + [step] :: Own(a, id);
  }

  /** The calls of a stage change nothing shared but the time. */
  predicate SameShared(s: State, s': State) {
    s'.keys == s.keys && s'.cache == s.cache && s'.adopted == s.adopted
  }

  lemma VerifyStage(cfg: Config, s: State, id: nat, w: Weather) returns (s': State)
    requires |s.adopted| > 0 && id in s.calls && s.calls[id] == NewCall(s.calls[id].headers, s.calls[id].arrival)
    requires s.clock <= w.verifyAt
    ensures |s'.adopted| > 0 && id in s'.calls && Leads(cfg, s, id, s')
    ensures SameShared(s, s') && s'.clock <= w.verifyAt
    ensures var c, bare := s'.calls[id], Bare(cfg, s.calls[id].headers, s.keys, w.verifyAt);
            && c.headers == s.calls[id].headers
            && if bare.Failure? then c.phase == Done(bare, NoFetch)
               else c.phase == Displaying && c.identity == bare.value
  {
    assert Play(cfg, s, []) == s;
    s' := StepAt(cfg, s, id, s, s.clock, w.outcome);
    if s'.calls[id].phase.ReadingKeys? {
      s' := StepAt(cfg, s, id, s', s'.clock, w.outcome);
      s' := StepAt(cfg, s, id, s', w.verifyAt, w.outcome);
    }
  }

  lemma CookieStage(cfg: Config, s: State, id: nat, mid: State, w: Weather) returns (s': State)
    requires |s.adopted| > 0 && |mid.adopted| > 0 && id in mid.calls && Leads(cfg, s, id, mid)
    requires mid.calls[id].phase.Displaying? && mid.clock <= w.cookieAt
    ensures |s'.adopted| > 0 && id in s'.calls && Leads(cfg, s, id, s')
    ensures SameShared(mid, s') && s'.clock <= w.cookieAt
    ensures var h, identity := mid.calls[id].headers, mid.calls[id].identity;
            && s'.calls[id].phase == FallingBack
            && s'.calls[id].identity ==
                 if Nameless(identity) && CookieRaw(cfg, h) != ""
                 then WithCookie(cfg, mid.keys, CookieRaw(cfg, h), w.cookieAt, identity) else identity
  {
    s' := StepAt(cfg, s, id, mid, mid.clock, w.outcome);
    if s'.calls[id].phase.ReadingCookieKeys? {
      s' := StepAt(cfg, s, id, s', s'.clock, w.outcome);
      s' := StepAt(cfg, s, id, s', w.cookieAt, w.outcome);
    }
  }

  lemma FetchStage(cfg: Config, s: State, id: nat, mid: State, w: Weather) returns (s': State)
    requires |s.adopted| > 0 && |mid.adopted| > 0 && id in mid.calls && Leads(cfg, s, id, mid)
    requires mid.calls[id].phase.Fetching? && mid.clock <= w.storeAt
    ensures |s'.adopted| > 0 && id in s'.calls && Leads(cfg, s, id, s') && s'.calls[id].phase.Done?
    ensures var identity := mid.calls[id].identity;
            (s'.calls[id].phase.result, s'.cache) ==
            if w.outcome.AnswersFor(identity.subject) then
              (Success(Showing(identity, w.outcome.answer.name, w.outcome.answer.email)),
               Remembered(mid.cache, w.outcome.answer, w.storeAt))
            else (Success(identity), mid.cache)
  {
    s' := StepAt(cfg, s, id, mid, mid.clock, w.outcome);
    if s'.calls[id].phase.Storing? {
      s' := StepAt(cfg, s, id, s', w.storeAt, w.outcome);
    }
  }

  lemma LookupStage(cfg: Config, s: State, id: nat, mid: State, w: Weather) returns (s': State)
    requires |s.adopted| > 0 && |mid.adopted| > 0 && id in mid.calls && Leads(cfg, s, id, mid)
    requires mid.calls[id].phase.LookingUp? && mid.clock <= w.decideAt
    ensures |s'.adopted| > 0 && id in s'.calls && Leads(cfg, s, id, s')
    ensures s'.cache == mid.cache && s'.clock == w.decideAt
    ensures var c, c', seen := mid.calls[id], s'.calls[id], Copied(mid.cache, mid.calls[id].identity.subject);
            if Fresh(seen, w.decideAt)
            then c'.phase == Done(Success(Showing(c.identity, seen.value.name, seen.value.email)), NoFetch)
            else c'.phase == Fetching(seen, w.decideAt) && c'.identity == c.identity
  {
    s' := StepAt(cfg, s, id, mid, mid.clock, w.outcome);
    s' := StepAt(cfg, s, id, s', w.decideAt, w.outcome);
  }

  lemma UserinfoStage(cfg: Config, s: State, id: nat, mid: State, w: Weather) returns (s': State)
    requires |s.adopted| > 0 && |mid.adopted| > 0 && id in mid.calls && Leads(cfg, s, id, mid)
    requires mid.calls[id].phase.FallingBack? && mid.clock <= w.decideAt <= w.storeAt
    ensures |s'.adopted| > 0 && id in s'.calls && Leads(cfg, s, id, s') && s'.calls[id].phase.Done?
    ensures var identity := mid.calls[id].identity;
            (s'.calls[id].phase.result, s'.cache) ==
            if cfg.userinfo && Nameless(identity) then
              var f := Filled(mid.cache, identity, w.decideAt, w.outcome, w.storeAt);
              (Success(f.0), f.1)
            else (Success(identity), mid.cache)
  {
    s' := StepAt(cfg, s, id, mid, mid.clock, w.outcome);
    if s'.calls[id].phase.LookingUp? {
      s' := LookupStage(cfg, s, id, s', w);
      if s'.calls[id].phase.Fetching? {
        s' := FetchStage(cfg, s, id, s', w);
      }
    }
  }

  /**
    `TokenVerifier.Authenticate`, for any clock readings in order and any fetch outcome, is a run of
    the runtime in which no other goroutine moves: same answer, same cache.
   */
  lemma AuthenticateIsARun(cfg: Config, s: State, id: nat, w: Weather) returns (s': State)
    requires |s.adopted| > 0 && id in s.calls && s.calls[id] == NewCall(s.calls[id].headers, s.calls[id].arrival)
    requires s.clock <= w.verifyAt <= w.cookieAt <= w.decideAt <= w.storeAt
    ensures Leads(cfg, s, id, s') && id in s'.calls && s'.calls[id].phase.Done?
    ensures (s'.calls[id].phase.result, s'.cache) == Alone(cfg, s.calls[id].headers, s.keys, s.cache, w)
  {
    s' := VerifyStage(cfg, s, id, w);
    if !s'.calls[id].phase.Done? {
      s' := CookieStage(cfg, s, id, s', w);
      s' := UserinfoStage(cfg, s, id, s', w);
    }
  }
}
