/**
  What a request gets for the verdicts, cookies and answers it meets, told in those terms alone: first
  for a request that nothing interleaves with, then for every call of every run (verify.go, userinfo.go,
  keyset.go).
 */
module Outcomes {
  import opened Wrappers
  import opened Sources
  import opened Cookies
  import opened Claims
  import opened KeySets
  import opened Userinfo
  import opened Verifier
  import opened Runtime
  import opened FetchBound

  /** The verdict on a raw token: of the configured issuer and, unless that is empty, the configured audience. */
  function Check(cfg: Config, keys: Jwks, raw: string, at: int): Option<Token> {
    if cfg.audience == "" then cfg.verdict(keys, raw, cfg.issuer, None, at)
    else cfg.verdict(keys, raw, cfg.issuer, Some(cfg.audience), at)
  }

  predicate HasCookie(cfg: Config, h: Headers) {
    cfg.displayCookie != "" && CookieValue(Get(h, "Cookie"), cfg.displayCookie) != ""
  }

  /** The verdict on the display cookie's token. */
  function CookieCheck(cfg: Config, keys: Jwks, h: Headers, at: int): Option<Token> {
    Check(cfg, keys, CookieValue(Get(h, "Cookie"), cfg.displayCookie), at)
  }

  /** The name and email a request can be shown. */
  datatype Pair = Pair(name: string, email: string)

  const NO_PAIR := Pair("", "")

  function PairOf(id: Identity): Pair {
    Pair(id.name, id.email)
  }

  /** The pair of an access token, under the configured claim names. */
  function OwnPair(cfg: Config, token: Token): Pair {
    Pair(StringClaim(token, if cfg.mapper.nameClaim == "" then "name" else cfg.mapper.nameClaim),
         StringClaim(token, if cfg.mapper.emailClaim == "" then "email" else cfg.mapper.emailClaim))
  }

  /** The pair a cookie's token shows for a subject: none unless it verified and is the subject's own. */
  function CookiePair(token: Option<Token>, subject: string): Pair {
    if token.None? || token.value.subject != subject then NO_PAIR
    else Pair(StringClaim(token.value, "name"), StringClaim(token.value, "email"))
  }

  // ----- One request on its own -----------------------------------------------------------------------

  /** Refused for want of a credential or of a verdict on it, and for nothing else. */
  lemma RefusedExactlyWhen(cfg: Config, h: Headers, keys: Jwks, cache: Cache, w: Weather)
    ensures var (answer, cache'), raw := Alone(cfg, h, keys, cache, w), Extracted(cfg.source, h);
            && (answer == Failure(NoCredential) <==> raw == None)
            && (answer == Failure(InvalidToken) <==> raw.Some? && Check(cfg, keys, raw.value, w.verifyAt) == None)
            && (answer.Failure? ==> cache' == cache)
  {
  }

  lemma BareIs(cfg: Config, h: Headers, keys: Jwks, at: int, raw: string, token: Token)
    requires Extracted(cfg.source, h) == Some(raw) && Check(cfg, keys, raw, at) == Some(token)
    ensures Bare(cfg, h, keys, at) == Success(IdentityOf(cfg.mapper, token, raw))
  {
  }

  lemma FallbacksKeepCore(cfg: Config, h: Headers, keys: Jwks, cache: Cache, w: Weather)
    requires Bare(cfg, h, keys, w.verifyAt).Success?
    ensures var answer := Alone(cfg, h, keys, cache, w).0;
            answer.Success? && Core(answer.value) == Core(Bare(cfg, h, keys, w.verifyAt).value)
  {
  }

  /** Whoever is let in is who the token says, with the roles its claim grants. */
  lemma CallerIsTheTokens(cfg: Config, h: Headers, keys: Jwks, cache: Cache, w: Weather, raw: string, token: Token)
    requires Extracted(cfg.source, h) == Some(raw) && Check(cfg, keys, raw, w.verifyAt) == Some(token)
    ensures var answer := Alone(cfg, h, keys, cache, w).0;
            && answer.Success?
            && answer.value.subject == token.subject && answer.value.token == raw
            && answer.value.claims == token.fields
            && var claim := if cfg.mapper.rolesClaim == "" then "groups" else cfg.mapper.rolesClaim;
               answer.value.roles == if claim in token.fields then StringsOf(token.fields[claim]) else []
  {
    BareIs(cfg, h, keys, w.verifyAt, raw, token);
    FallbacksKeepCore(cfg, h, keys, cache, w);
  }

  /** The token's own pair is shown if it has one, else the cookie's; neither touches the cache. */
  lemma ProvenPairsComeFirst(cfg: Config, h: Headers, keys: Jwks, cache: Cache, w: Weather, raw: string, token: Token)
    requires Extracted(cfg.source, h) == Some(raw) && Check(cfg, keys, raw, w.verifyAt) == Some(token)
    ensures var (answer, cache'), own := Alone(cfg, h, keys, cache, w), OwnPair(cfg, token);
            own != NO_PAIR ==> answer.Success? && PairOf(answer.value) == own && cache' == cache
    ensures var (answer, cache'), cookie := Alone(cfg, h, keys, cache, w),
                CookiePair(CookieCheck(cfg, keys, h, w.cookieAt), token.subject);
            OwnPair(cfg, token) == NO_PAIR && HasCookie(cfg, h) && cookie != NO_PAIR ==>
              answer.Success? && PairOf(answer.value) == cookie && cache' == cache
  {
  }

  /**
    With no proven pair, userinfo decides if it is enabled: an entry younger than an hour is shown, else
    an answer for this very subject is shown and stored with the time of storing; anything else shows
    and stores nothing.
   */
  lemma UserinfoComesLast(cfg: Config, h: Headers, keys: Jwks, cache: Cache, w: Weather, raw: string, token: Token)
    requires Extracted(cfg.source, h) == Some(raw) && Check(cfg, keys, raw, w.verifyAt) == Some(token)
    requires OwnPair(cfg, token) == NO_PAIR
    requires HasCookie(cfg, h) ==> CookiePair(CookieCheck(cfg, keys, h, w.cookieAt), token.subject) == NO_PAIR
    ensures var (answer, cache'), sub := Alone(cfg, h, keys, cache, w), token.subject;
            && answer.Success?
            && var shown := PairOf(answer.value);
               if !cfg.userinfo then shown == NO_PAIR && cache' == cache
               else if sub in cache && w.decideAt - cache[sub].fetchedAt < 3_600 * 1_000_000_000 then
                 shown == Pair(cache[sub].name, cache[sub].email) && cache' == cache
               else if w.outcome.Answered? && w.outcome.answer.sub == sub then
                 var a := w.outcome.answer;
                 shown == Pair(a.name, a.email) && cache' == cache[sub := Entry(a.name, a.email, w.storeAt)]
               else shown == NO_PAIR && cache' == cache
  {
  }

  // ----- The access token, in every run ---------------------------------------------------------------

  /**
    Whoever is let in presented a token that passed the verdict, asked for the configured issuer and
    audience, under a key set current since the call came in, and is the subject of that token.
   */
  lemma AdmittedByAVerdict(r: Run, id: nat) returns (v: nat, at: int, token: Token)
    requires r.Valid() && id in r.End().calls
    requires var p := r.End().calls[id].phase; p.Done? && p.result.Success?
    ensures var s, c := r.End(), r.End().calls[id];
            var caller := c.phase.result.value;
            && c.arrival.version <= v < |s.adopted| && c.arrival.at <= at <= s.clock
            && Extracted(r.cfg.source, c.headers) == Some(caller.token)
            && Check(r.cfg, s.adopted[v], caller.token, at) == Some(token)
            && caller.subject == token.subject && caller.claims == token.fields
  {
    r.Holds(|r.actions|);
    var s, c := r.End(), r.End().calls[id];
    assert CallOk(r.cfg, s, c);
    v, at := c.access.view.version, c.access.at;
    token := Parse(r.cfg, s.adopted[v], c.identity.token, at).value;
  }

  /** A refusal names its reason: no credential was found, or a verdict went against the one that was. */
  lemma RefusedByAVerdict(r: Run, id: nat)
    requires r.Valid() && id in r.End().calls
    requires var p := r.End().calls[id].phase; p.Done? && p.result.Failure?
    ensures var s, c := r.End(), r.End().calls[id];
            var raw := Extracted(r.cfg.source, c.headers);
            && (c.phase.result == Failure(NoCredential) <==> raw == None)
            && (raw.Some? ==>
                  exists v: nat, at: int ::
                    && c.arrival.version <= v < |s.adopted| && c.arrival.at <= at <= s.clock
                    && Check(r.cfg, s.adopted[v], raw.value, at) == None)
  {
    r.Holds(|r.actions|);
    var s, c := r.End(), r.End().calls[id];
    assert CallOk(r.cfg, s, c);
    if c.phase.result == Failure(InvalidToken) {
      var raw := Extracted(r.cfg.source, c.headers);
      assert Check(r.cfg, s.adopted[c.access.view.version], raw.value, c.access.at) == None;
    }
  }

  /** A token that the verdict rejects whenever the configured audience is asked for lets nobody in. */
  lemma OtherAudiencesAreRefused(r: Run, id: nat, raw: string)
    requires r.Valid() && id in r.End().calls && r.End().calls[id].phase.Done?
    requires Extracted(r.cfg.source, r.End().calls[id].headers) == Some(raw)
    requires var asked := if r.cfg.audience == "" then None else Some(r.cfg.audience);
             forall keys: Jwks, at: int :: r.cfg.verdict(keys, raw, r.cfg.issuer, asked, at) == None
    ensures r.End().calls[id].phase.result == Failure(InvalidToken)
  {
    if r.End().calls[id].phase.result.Success? {
      var v, at, token := AdmittedByAVerdict(r, id);
      assert false;
    } else {
      RefusedByAVerdict(r, id);
      var error := r.End().calls[id].phase.result.error;
      assert error == NoCredential || error == InvalidToken;
    }
  }

  /** Every token is checked with the key set current when its check begins. */
  lemma KeysAreReadWhenNeeded(r: Run, i: nat, id: nat)
    requires r.Valid() && i < |r.actions| && r.actions[i].Advance? && r.actions[i].id == id
    requires id in r.At(i).calls && (r.At(i).calls[id].phase.ReadingKeys? || r.At(i).calls[id].phase.ReadingCookieKeys?)
    ensures id in r.At(i + 1).calls
    ensures var p := r.At(i + 1).calls[id].phase;
            && (if r.At(i).calls[id].phase.ReadingKeys? then p.Verifying? else p.VerifyingCookie?)
            && p.view.keys == r.At(i).keys
  {
    r.Steps(i);
  }

  // ----- One call, one step ---------------------------------------------------------------------------

  /** A call changes by its own steps and by no other action. */
  lemma CallNext(r: Run, i: nat, id: nat)
    requires r.Valid() && i < |r.actions| && id in r.At(i).calls
    ensures id in r.At(i + 1).calls
    ensures r.At(i + 1).calls[id] ==
            if r.actions[i].Advance? && r.actions[i].id == id
            then Stepped(r.cfg, r.At(i), r.At(i).calls[id], r.actions[i].outcome) else r.At(i).calls[id]
  {
    r.Steps(i);
  }

  lemma AnswersGrow(r: Run, i: nat, id: nat)
    requires r.Valid() && i < |r.actions| && id in r.At(i).calls
    ensures r.At(i).answers <= r.At(i + 1).answers
    ensures var a := r.actions[i];
            r.At(i).calls[id].phase.Fetching? && a.Advance? && a.id == id && a.outcome.Answered? ==>
              a.outcome.answer in r.At(i + 1).answers
  {
    r.Steps(i);
  }

  lemma StoreNow(r: Run, i: nat, id: nat)
    requires r.Valid() && i < |r.actions| && id in r.At(i).calls && r.At(i).calls[id].phase.Storing?
    requires r.actions[i].Advance? && r.actions[i].id == id
    ensures var a := r.At(i).calls[id].phase.answer;
            r.At(i + 1).cache == r.At(i).cache[a.sub := Entry(a.name, a.email, r.At(i).clock)]
  {
    r.Steps(i);
  }

  // ----- The display cookie, in every run ---------------------------------------------------------------

  /** The call is at the verdict on its cookie's token, and takes that step next. */
  ghost predicate ChecksCookie(r: Run, i: nat, id: nat)
    requires r.Valid()
  {
    && i < |r.actions| && r.actions[i].Advance? && r.actions[i].id == id
    && id in r.At(i).calls && r.At(i).calls[id].phase.VerifyingCookie?
  }

  /** What the verdict is, with the keys the call has read and at the time of the step. */
  ghost function CookieVerdict(r: Run, i: nat, id: nat): Option<Token>
    requires r.Valid() && ChecksCookie(r, i, id)
  {
    var c := r.At(i).calls[id];
    CookieCheck(r.cfg, c.phase.view.keys, c.headers, r.At(i).clock)
  }

  lemma CookieStep(r: Run, i: nat, id: nat)
    requires r.Valid() && ChecksCookie(r, i, id)
    ensures var c := r.At(i).calls[id];
            var pair := CookiePair(CookieVerdict(r, i, id), c.identity.subject);
            && PairOf(c.identity) == NO_PAIR && id in r.At(i + 1).calls
            && r.At(i + 1).calls[id] == c.(identity := Showing(c.identity, pair.name, pair.email), phase := FallingBack)
  {
    CallNext(r, i, id);
    r.Holds(i);
    assert CallOk(r.cfg, r.At(i), r.At(i).calls[id]);
  }

  /** Once a call has a pair to show, it goes on to return it and asks nobody. */
  lemma {:induction false} NamedCallsFinish(r: Run, id: nat, i: nat, j: nat)
    requires r.Valid() && i <= j <= |r.actions| && id in r.At(i).calls
    requires r.At(i).calls[id].phase.FallingBack? && PairOf(r.At(i).calls[id].identity) != NO_PAIR
    ensures id in r.At(j).calls
    ensures var before, after := r.At(i).calls[id], r.At(j).calls[id];
            && after.identity == before.identity
            && (after.phase == FallingBack || after.phase == Done(Success(before.identity), NoFetch))
  {
    if i < j {
      NamedCallsFinish(r, id, i, j - 1);
      CallNext(r, j - 1, id);
    }
  }

  /** A call without one shows, from then on, nothing or what userinfo answered for its subject. */
  lemma {:induction false} NamelessCallsAskUserinfo(r: Run, id: nat, i: nat, j: nat)
    requires r.Valid() && i <= j <= |r.actions| && id in r.At(i).calls
    requires r.At(i).calls[id].phase.FallingBack? && PairOf(r.At(i).calls[id].identity) == NO_PAIR
    ensures id in r.At(j).calls
    ensures var after := r.At(j).calls[id];
            && (after.phase.FallingBack? || after.phase.LookingUp? || InFill(after) || after.phase.Done?)
            && (PairOf(after.identity) == NO_PAIR || FromUserinfo(r.cfg, r.At(j), after.identity))
  {
    if i < j {
      NamelessCallsAskUserinfo(r, id, i, j - 1);
      r.Holds(j - 1);
      CallNext(r, j - 1, id);
      AnswersGrow(r, j - 1, id);
      if r.actions[j - 1].Advance? && r.actions[j - 1].id == id {
        UserinfoStep(r.cfg, r.At(j - 1), r.At(j - 1).calls[id], r.actions[j - 1].outcome, r.At(j).answers);
      }
    }
  }

  /** After the display cookie a step shows nothing new but what userinfo answered for the subject. */
  lemma UserinfoStep(cfg: Config, s: State, c: Call, outcome: FetchOutcome, answers: set<Answer>)
    requires |s.adopted| > 0 && CallOk(cfg, s, c) && s.answers <= answers
    requires c.phase.Fetching? && outcome.Answered? ==> outcome.answer in answers
    requires c.phase.FallingBack? || c.phase.LookingUp? || InFill(c) || c.phase.Done?
    ensures var c' := Stepped(cfg, s, c, outcome);
            && (c'.phase.FallingBack? || c'.phase.LookingUp? || InFill(c') || c'.phase.Done?)
            && (|| c'.identity == c.identity
                || (cfg.userinfo && Answer(c'.identity.subject, c'.identity.name, c'.identity.email) in answers))
  {
  }

  /** Past the display cookie: the call has gone on to the fallbacks after it. */
  predicate PastCookie(c: Call) {
    c.phase.FallingBack? || c.phase.LookingUp? || InFill(c) || (c.phase.Done? && c.phase.result.Success?)
  }

  /** The access token this call was let in by carries no pair. */
  ghost predicate NamelessToken(cfg: Config, c: Call) {
    var raw := Extracted(cfg.source, c.headers);
    && raw.Some?
    && var token := Check(cfg, c.access.view.keys, raw.value, c.access.at);
       token.Some? && OwnPair(cfg, token.value) == NO_PAIR
  }

  /** A call with a nameless token and a cookie has had the cookie's token checked. */
  lemma {:induction false} CookieWasChecked(r: Run, id: nat, j: nat) returns (i: nat)
    requires r.Valid() && j <= |r.actions| && id in r.At(j).calls && PastCookie(r.At(j).calls[id])
    requires HasCookie(r.cfg, r.At(j).calls[id].headers) && NamelessToken(r.cfg, r.At(j).calls[id])
    ensures i < j && ChecksCookie(r, i, id)
    ensures && r.At(i).calls[id].headers == r.At(j).calls[id].headers
            && r.At(i).calls[id].access == r.At(j).calls[id].access
  {
    CookieJustBefore(r, id, j);
    if PastCookie(r.At(j - 1).calls[id]) {
      i := CookieWasChecked(r, id, j - 1);
    } else {
      i := j - 1;
    }
  }

  lemma CookieJustBefore(r: Run, id: nat, j: nat)
    requires r.Valid() && 0 < j <= |r.actions| && id in r.At(j).calls && PastCookie(r.At(j).calls[id])
    requires HasCookie(r.cfg, r.At(j).calls[id].headers) && NamelessToken(r.cfg, r.At(j).calls[id])
    ensures id in r.At(j - 1).calls
    ensures var c, c' := r.At(j - 1).calls[id], r.At(j).calls[id];
            c.headers == c'.headers && c.access == c'.access
    ensures PastCookie(r.At(j - 1).calls[id]) || ChecksCookie(r, j - 1, id)
  {
    r.Steps(j - 1);
    r.Holds(j - 1);
    var c, c' := BeforeCookie(r.cfg, r.At(j - 1), r.actions[j - 1], id);
  }

  lemma DisplayingIsNameless(cfg: Config, s: State, c: Call)
    requires CallOk(cfg, s, c) && c.phase.Displaying? && NamelessToken(cfg, c)
    ensures Nameless(c.identity)
  {
  }

  lemma OwnStepPastCookie(cfg: Config, s: State, c: Call, outcome: FetchOutcome)
    requires |s.adopted| > 0 && CallOk(cfg, s, c)
    requires var c' := Stepped(cfg, s, c, outcome);
             PastCookie(c') && HasCookie(cfg, c'.headers) && NamelessToken(cfg, c')
    ensures var c' := Stepped(cfg, s, c, outcome); c.headers == c'.headers && c.access == c'.access
    ensures PastCookie(c) || c.phase.VerifyingCookie?
  {
    if c.phase.Displaying? {
      DisplayingIsNameless(cfg, s, c);
    } else if c.phase.Starting? || c.phase.ReadingKeys? || c.phase.Verifying? || c.phase.ReadingCookieKeys? {
      EarlySteps(cfg, s, c, outcome);
    }
  }

  lemma EarlySteps(cfg: Config, s: State, c: Call, outcome: FetchOutcome)
    requires |s.adopted| > 0
    requires c.phase.Starting? || c.phase.ReadingKeys? || c.phase.Verifying? || c.phase.ReadingCookieKeys?
    ensures !PastCookie(Stepped(cfg, s, c, outcome))
  {
  }

  /** The step that takes such a call past its cookie is the verdict on the cookie's token. */
  lemma BeforeCookie(cfg: Config, s: State, a: Action, id: nat) returns (c: Call, c': Call)
    requires SharedOk(s) && id in Next(cfg, s, a).calls && PastCookie(Next(cfg, s, a).calls[id])
    requires id in s.calls ==> CallOk(cfg, s, s.calls[id])
    requires HasCookie(cfg, Next(cfg, s, a).calls[id].headers) && NamelessToken(cfg, Next(cfg, s, a).calls[id])
    ensures id in s.calls && c == s.calls[id] && c' == Next(cfg, s, a).calls[id]
    ensures c.headers == c'.headers && c.access == c'.access
    ensures PastCookie(c) || (c.phase.VerifyingCookie? && a.Advance? && a.id == id)
  {
    c' := Next(cfg, s, a).calls[id];
    assert id in s.calls by {
      assert c'.phase != Starting;
    }
    c := s.calls[id];
    if a.Advance? && a.id == id {
      OwnStepPastCookie(cfg, s, c, a.outcome);
    } else {
      assert c' == c;
    }
  }

  /**
    The display cookie decides for every call whose token carries no pair: if its token verified, with
    the keys the call read for it and at that moment, for the same subject and with something to show,
    the call returns exactly that pair and makes no userinfo request; otherwise the cookie shows nothing.
   */
  lemma DisplayCookieDecides(r: Run, id: nat) returns (i: nat)
    requires r.Valid() && id in r.End().calls
    requires var c := r.End().calls[id]; c.phase.Done? && c.phase.result.Success?
    requires HasCookie(r.cfg, r.End().calls[id].headers) && NamelessToken(r.cfg, r.End().calls[id])
    ensures ChecksCookie(r, i, id) && r.At(i).calls[id].headers == r.End().calls[id].headers
    ensures var c := r.End().calls[id];
            var caller := c.phase.result.value;
            var shown := CookiePair(CookieVerdict(r, i, id), caller.subject);
            if shown != NO_PAIR then PairOf(caller) == shown && c.phase.fetch == NoFetch
            else PairOf(caller) == NO_PAIR || FromUserinfo(r.cfg, r.End(), caller)
  {
    i := CookieWasChecked(r, id, |r.actions|);
    CookieStep(r, i, id);
    SubjectStays(r, id, i + 1, |r.actions|);
    ReturnsItsIdentity(r, id);
    if PairOf(r.At(i + 1).calls[id].identity) != NO_PAIR {
      NamedCallsFinish(r, id, i + 1, |r.actions|);
    } else {
      NamelessCallsAskUserinfo(r, id, i + 1, |r.actions|);
    }
  }

  lemma ReturnsItsIdentity(r: Run, id: nat)
    requires r.Valid() && id in r.End().calls
    requires var c := r.End().calls[id]; c.phase.Done? && c.phase.result.Success?
    ensures r.End().calls[id].phase.result == Success(r.End().calls[id].identity)
  {
    r.Holds(|r.actions|);
    assert CallOk(r.cfg, r.End(), r.End().calls[id]);
  }

  lemma {:induction false} SubjectStays(r: Run, id: nat, i: nat, j: nat)
    requires r.Valid() && i <= j <= |r.actions| && id in r.At(i).calls && PastCookie(r.At(i).calls[id])
    ensures id in r.At(j).calls && PastCookie(r.At(j).calls[id])
    ensures r.At(j).calls[id].identity.subject == r.At(i).calls[id].identity.subject
  {
    if i < j {
      SubjectStays(r, id, i, j - 1);
      CallNext(r, j - 1, id);
    }
  }

  // ----- The userinfo answer, in every run ---------------------------------------------------------------

  /** A fetch that ends in anything but an answer for this very subject shows and stores nothing. */
  lemma OtherOutcomesShowNothing(r: Run, i: nat, id: nat)
    requires r.Valid() && i < |r.actions| && r.actions[i].Advance? && r.actions[i].id == id
    requires id in r.At(i).calls && r.At(i).calls[id].phase.Fetching?
    requires var c := r.At(i).calls[id];
             r.actions[i].outcome == Refused || r.actions[i].outcome.answer.sub != c.identity.subject
    ensures var c := r.At(i).calls[id];
            && id in r.At(i + 1).calls && r.At(i + 1).calls[id].phase.Done?
            && r.At(i + 1).calls[id].phase.result == Success(c.identity)
            && PairOf(c.identity) == NO_PAIR && r.At(i + 1).cache == r.At(i).cache
  {
    r.Steps(i);
    r.Holds(i);
    assert CallOk(r.cfg, r.At(i), r.At(i).calls[id]);
  }

  /**
    An answer for this subject, whatever it says, is what the call returns when it finishes, and by then
    it has been stored under the subject with the time of storing.
   */
  lemma {:induction false} AnswersAreShownAndStored(r: Run, i: nat, id: nat, a: Answer, j: nat) returns (m: nat)
    requires r.Valid() && i < j <= |r.actions| && r.actions[i] == Advance(id, Answered(a))
    requires id in r.At(i).calls && r.At(i).calls[id].phase.Fetching? && a.sub == r.At(i).calls[id].identity.subject
    ensures id in r.At(j).calls && r.At(j).calls[id].identity == Showing(r.At(i).calls[id].identity, a.name, a.email)
    ensures var c := r.At(j).calls[id];
            if c.phase.Done? then
              && c.phase.result == Success(c.identity) && i < m < j && a.sub in r.At(m + 1).cache
              && r.At(m + 1).cache[a.sub] == Entry(a.name, a.email, r.At(m).clock)
            else c.phase.Storing? && c.phase.answer == a
  {
    if j == i + 1 {
      m := i;
    } else {
      m := AnswersAreShownAndStored(r, i, id, a, j - 1);
      if r.At(j - 1).calls[id].phase.Storing? && r.actions[j - 1].Advance? && r.actions[j - 1].id == id {
        m := j - 1;
        StoreNow(r, m, id);
      }
    }
    CallNext(r, j - 1, id);
  }

  // ----- The key set, in every run -------------------------------------------------------------------------

  /** The runtime starts exactly with a first set that has keys, and with that set. */
  lemma StartsExactlyWhen(first: JwksOutcome, clock: int)
    ensures Boot(first, clock).None? <==> first == Unavailable || first == Parsed([])
    ensures Boot(first, clock).Some? ==> Parsed(Boot(first, clock).value.keys) == first
  {
  }

  /** A download that ends with keys, however few, replaces the set at the next swap and not before. */
  lemma {:induction false} SwapsInWhatItFetched(r: Run, i: nat, ks: Jwks, j: nat)
    requires r.Valid() && i < j <= |r.actions|
    requires r.actions[i] == EndRefresh(Parsed(ks)) && ks != [] && r.At(i).refresher.Downloading?
    requires forall m | i < m < j :: !r.actions[m].Adopt?
    ensures r.At(j).keys == r.At(i).keys && r.At(j).refresher == Adopting(ks)
    ensures j < |r.actions| && r.actions[j].Adopt? ==> r.At(j + 1).keys == ks
  {
    r.Steps(j - 1);
    if j > i + 1 {
      SwapsInWhatItFetched(r, i, ks, j - 1);
    }
    if j < |r.actions| {
      r.Steps(j);
    }
  }

  /** A whole refresh, from a tick to the swap, puts what it fetched in force. */
  lemma RefreshTakesEffect(r: Run, i: nat, ks: Jwks)
    requires r.Valid() && i + 2 < |r.actions| && r.At(i).refresher.Waiting? && ks != []
    requires r.actions[i] == BeginRefresh && r.actions[i + 1] == EndRefresh(Parsed(ks)) && r.actions[i + 2] == Adopt
    ensures r.At(i + 3).keys == ks && r.At(i + 3).refresher == Waiting
  {
    r.Steps(i);
    r.Steps(i + 1);
    r.Steps(i + 2);
  }

  /** The end of the context stops a waiting refresher, and the key set stays as it is for good. */
  lemma {:induction false} StopsForGood(r: Run, i: nat, j: nat)
    requires r.Valid() && i < j <= |r.actions| && r.actions[i] == Stop && r.At(i).refresher.Waiting?
    ensures r.At(j).refresher == Stopped && r.At(j).keys == r.At(i).keys
  {
    r.Steps(j - 1);
    if j > i + 1 {
      StopsForGood(r, i, j - 1);
    }
  }

  /** One that ends without keys leaves the set, and the refresher waiting for its next tick. */
  lemma KeepsWhatItHas(r: Run, i: nat, outcome: JwksOutcome)
    requires r.Valid() && i < |r.actions| && r.actions[i] == EndRefresh(outcome) && r.At(i).refresher.Downloading?
    requires outcome == Unavailable || outcome == Parsed([])
    ensures r.At(i + 1).keys == r.At(i).keys && r.At(i + 1).refresher == Waiting
  {
    r.Steps(i);
  }
}
