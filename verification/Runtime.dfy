/**
  Any number of `Authenticate` calls at once, over one key set replaced by one background
  refresher and one userinfo cache whose lock is released between lookup and store (verify.go,
  keyset.go, userinfo.go). Each transition is one atomic step of one goroutine: a critical
  section, a clock reading, or the end of a fetch with an arbitrary outcome.
 */
module Runtime {
  import opened Wrappers
  import opened Sources
  import opened Claims
  import opened KeySets
  import opened Userinfo
  import opened Verifier

  /** A key set read by `Set()`, and its position in the history of sets. */
  datatype View = View(keys: Jwks, version: nat)

  /** A finished verification: what was read, and when the token was checked. */
  datatype Checked = Checked(view: View, at: int)

  datatype Phase =
    | Starting
    | ReadingKeys
    | Verifying(view: View)
    | Displaying
    | ReadingCookieKeys
    | VerifyingCookie(view: View)
    | FallingBack
    | LookingUp
    | Deciding(seen: Option<Entry>)
    | Fetching(seen: Option<Entry>, startedAt: int)
    | Storing(seen: Option<Entry>, startedAt: int, answer: Answer)
    | Done(result: Result<Identity, AuthError>, fetch: Fetch)

  /** What became of a call's userinfo request. */
  datatype Fetch = NoFetch | Failed(startedAt: int) | Stored(seen: Option<Entry>, startedAt: int)

  /** The newest key set and the time when a call came in. */
  datatype Arrival = Arrival(version: nat, at: int)

  datatype Call = Call(
    headers: Headers, arrival: Arrival, phase: Phase, raw: string, access: Checked, identity: Identity)

  const NOBODY := Identity("", "", "", [], "", map[])

  function NewCall(h: Headers, arrival: Arrival): Call {
    Call(h, arrival, Starting, "", Checked(View([], 0), 0), NOBODY)
  }

  datatype Refresher = Waiting | Downloading | Adopting(keys: Jwks) | Stopped

  /** `adopted` is every key set ever current, oldest first; `answers` every answer userinfo gave. */
  datatype State = State(
    clock: int, keys: Jwks, adopted: seq<Jwks>, refresher: Refresher,
    cache: Cache, answers: set<Answer>, calls: map<nat, Call>)

  datatype Action =
    | Tick(elapsed: nat)
    | Arrive(id: nat, headers: Headers)
    | Advance(id: nat, outcome: FetchOutcome)
    | BeginRefresh
    | EndRefresh(fetched: JwksOutcome)
    | Adopt
    | Stop

  /** `newKeySet` either fails or starts the runtime with its first fetched set. */
  function Boot(first: JwksOutcome, clock: int): Option<State> {
    if first.Usable()
    then Some(State(clock, first.keys, [first.keys], Waiting, map[], {}, map[]))
    else None
  }

  // ----- One step --------------------------------------------------------------------------

  function Finish(c: Call, result: Result<Identity, AuthError>, fetch: Fetch): Call {
    c.(phase := Done(result, fetch))
  }

  /** The next atomic step of one call, in the shared state it finds. */
  function Stepped(cfg: Config, s: State, c: Call, outcome: FetchOutcome): Call
    requires |s.adopted| > 0
  {
    match c.phase
    case Starting =>
      var raw := Extracted(cfg.source, c.headers);
      if raw.None? then Finish(c, Failure(NoCredential), NoFetch)
      else c.(raw := raw.value, phase := ReadingKeys)
    case ReadingKeys =>
      c.(phase := Verifying(View(s.keys, |s.adopted| - 1)))
    case Verifying(view) =>
      var token := Parse(cfg, view.keys, c.raw, s.clock);
      var checked := c.(access := Checked(view, s.clock));
      if token.None? then Finish(checked, Failure(InvalidToken), NoFetch)
      else checked.(identity := IdentityOf(cfg.mapper, token.value, c.raw), phase := Displaying)
    case Displaying =>
      if Nameless(c.identity) && CookieRaw(cfg, c.headers) != ""
      then c.(phase := ReadingCookieKeys) else c.(phase := FallingBack)
    case ReadingCookieKeys =>
      c.(phase := VerifyingCookie(View(s.keys, |s.adopted| - 1)))
    case VerifyingCookie(view) =>
      c.(identity := WithCookie(cfg, view.keys, CookieRaw(cfg, c.headers), s.clock, c.identity),
         phase := FallingBack)
    case FallingBack =>
      if cfg.userinfo && Nameless(c.identity) then c.(phase := LookingUp)
      else Finish(c, Success(c.identity), NoFetch)
    case LookingUp =>
      c.(phase := Deciding(Copied(s.cache, c.identity.subject)))
    case Deciding(seen) =>
      if Fresh(seen, s.clock) then
        var shown := Showing(c.identity, seen.value.name, seen.value.email);
        Finish(c.(identity := shown), Success(shown), NoFetch)
      else c.(phase := Fetching(seen, s.clock))
    case Fetching(seen, startedAt) =>
      if outcome.AnswersFor(c.identity.subject) then
        c.(identity := Showing(c.identity, outcome.answer.name, outcome.answer.email),
           phase := Storing(seen, startedAt, outcome.answer))
      else Finish(c, Success(c.identity), Failed(startedAt))
    case Storing(seen, startedAt, _) =>
      Finish(c, Success(c.identity), Stored(seen, startedAt))
    case Done(_, _) => c
  }

  /** Actions that do not apply leave the state alone, so every list of actions is a run. */
  function Next(cfg: Config, s: State, a: Action): State
    requires |s.adopted| > 0
  {
    match a
    case Tick(elapsed) => s.(clock := s.clock + elapsed)
    case Arrive(id, h) =>
      if id in s.calls then s
      else s.(calls := s.calls[id := NewCall(h, Arrival(|s.adopted| - 1, s.clock))])
    case Advance(id, outcome) =>
      if id !in s.calls then s
      else
        var c := s.calls[id];
        s.(calls := s.calls[id := Stepped(cfg, s, c, outcome)],
           cache := if c.phase.Storing? then Remembered(s.cache, c.phase.answer, s.clock) else s.cache,
           answers := if c.phase.Fetching? && outcome.Answered? then s.answers + {outcome.answer}
                      else s.answers)
    case BeginRefresh => if s.refresher.Waiting? then s.(refresher := Downloading) else s
    case EndRefresh(fetched) =>
      if !s.refresher.Downloading? then s
      else if fetched.Usable() then s.(refresher := Adopting(fetched.keys))
      else s.(refresher := Waiting)
    case Adopt =>
      if !s.refresher.Adopting? then s
      else s.(keys := s.refresher.keys, adopted := s.adopted + [s.refresher.keys], refresher := Waiting)
    case Stop => if s.refresher.Waiting? then s.(refresher := Stopped) else s
  }

  /** The state after the first `i` actions. */
  function After(cfg: Config, s0: State, actions: seq<Action>, i: nat): (s: State)
    requires |s0.adopted| > 0 && i <= |actions|
    ensures |s.adopted| > 0
  {
    if i == 0 then s0 else Next(cfg, After(cfg, s0, actions, i - 1), actions[i - 1])
  }

  // ----- What every reachable state keeps ---------------------------------------------------

  /** The shared state holds nothing that was not fetched: the key set and the cache. */
  ghost predicate SharedOk(s: State) {
    && |s.adopted| > 0 && s.keys == s.adopted[|s.adopted| - 1]
    && (forall i | 0 <= i < |s.adopted| :: s.adopted[i] != [])
    && (s.refresher.Adopting? ==> s.refresher.keys != [])
    && (forall sub | sub in s.cache :: EntryOk(s, sub, s.cache[sub]))
  }

  /** A cache entry is an answer userinfo gave for exactly that subject, and is not from the future. */
  ghost predicate EntryOk(s: State, sub: string, e: Entry) {
    Answer(sub, e.name, e.email) in s.answers && e.fetchedAt <= s.clock
  }

  ghost predicate ViewOk(s: State, v: View) {
    v.version < |s.adopted| && v.keys == s.adopted[v.version]
  }

  /** The token was checked after the call came in, with a key set at least as new as it met. */
  ghost predicate CheckedOk(s: State, c: Call) {
    && ViewOk(s, c.access.view) && c.arrival.version <= c.access.view.version
    && c.arrival.at <= c.access.at <= s.clock
  }

  /** A verified cookie token of this subject, checked no earlier in the key history than `from`. */
  ghost predicate FromCookie(cfg: Config, s: State, h: Headers, from: nat, id: Identity) {
    && CookieRaw(cfg, h) != ""
    && exists v: nat, at: int ::
         && from <= v < |s.adopted| && at <= s.clock
         && CookieShows(cfg, s.adopted[v], h, at, id)
  }

  ghost predicate CookieShows(cfg: Config, keys: Jwks, h: Headers, at: int, id: Identity) {
    var token := Parse(cfg, keys, CookieRaw(cfg, h), at);
    && token.Some? && token.value.subject == id.subject
    && id.name == StringClaim(token.value, "name") && id.email == StringClaim(token.value, "email")
  }

  ghost predicate FromUserinfo(cfg: Config, s: State, id: Identity) {
    cfg.userinfo && Answer(id.subject, id.name, id.email) in s.answers
  }

  /** Everything but the display claims. */
  function Core(id: Identity): Identity {
    Showing(id, "", "")
  }

  /**
    What a call that has verified its access token holds: the identity a bare verifier would
    return for the keys and the time it used, with the display pair replaced, if at all, as a
    whole and only when the token carried none.
   */
  ghost predicate IdentityOk(cfg: Config, s: State, c: Call) {
    && CheckedOk(s, c)
    && var bare := Bare(cfg, c.headers, c.access.view.keys, c.access.at);
    && bare.Success? && Core(c.identity) == Core(bare.value)
    && (c.identity == bare.value || (
         && Nameless(bare.value)
         && (|| FromCookie(cfg, s, c.headers, c.access.view.version, c.identity)
             || FromUserinfo(cfg, s, c.identity))))
  }

  ghost predicate Verified(phase: Phase) {
    phase.Displaying? || phase.ReadingCookieKeys? || phase.VerifyingCookie? || phase.FallingBack?
    || phase.LookingUp? || phase.Deciding? || phase.Fetching? || phase.Storing?
    || (phase.Done? && phase.result.Success?)
  }

  ghost predicate SeenOk(s: State, sub: string, seen: Option<Entry>) {
    seen.Some? ==> EntryOk(s, sub, seen.value)
  }

  /** A request started when the copied entry, if any, was at least one TTL old. */
  ghost predicate Stale(seen: Option<Entry>, startedAt: int) {
    seen.Some? ==> startedAt - seen.value.fetchedAt >= TTL
  }

  ghost predicate PhaseOk(cfg: Config, s: State, c: Call) {
    var raw := Extracted(cfg.source, c.headers);
    var bare := Bare(cfg, c.headers, c.access.view.keys, c.access.at);
    match c.phase
    case Starting => true
    case ReadingKeys => raw == Some(c.raw)
    case Verifying(view) => raw == Some(c.raw) && ViewOk(s, view) && c.arrival.version <= view.version
    case Displaying => bare == Success(c.identity)
    case ReadingCookieKeys => bare == Success(c.identity) && Nameless(c.identity) && CookieRaw(cfg, c.headers) != ""
    case VerifyingCookie(view) =>
      && bare == Success(c.identity) && Nameless(c.identity) && CookieRaw(cfg, c.headers) != ""
      && ViewOk(s, view) && c.access.view.version <= view.version
    case FallingBack => true
    case LookingUp => cfg.userinfo && Nameless(c.identity)
    case Deciding(seen) => cfg.userinfo && Nameless(c.identity) && SeenOk(s, c.identity.subject, seen)
    case Fetching(seen, startedAt) =>
      cfg.userinfo && Nameless(c.identity) && startedAt <= s.clock && Stale(seen, startedAt)
    case Storing(seen, startedAt, answer) =>
      && startedAt <= s.clock && Stale(seen, startedAt)
      && answer.sub == c.identity.subject && answer in s.answers
    case Done(result, fetch) =>
      && (fetch.Stored? ==> Stale(fetch.seen, fetch.startedAt))
      && match result {
        case Success(id) => id == c.identity
        case Failure(NoCredential) => raw == None
        case Failure(InvalidToken) =>
          CheckedOk(s, c) && bare == Failure(InvalidToken)
      }
  }

  ghost predicate CallOk(cfg: Config, s: State, c: Call) {
    && c.arrival.version < |s.adopted| && c.arrival.at <= s.clock
    && (Verified(c.phase) ==> IdentityOk(cfg, s, c)) && PhaseOk(cfg, s, c)
  }

  ghost predicate Inv(cfg: Config, s: State) {
    SharedOk(s) && forall id | id in s.calls :: CallOk(cfg, s, s.calls[id])
  }

  /** Time moves on, the histories only grow, and a cached entry is only ever replaced by a later one. */
  ghost predicate Grows(s: State, s': State) {
    && s.clock <= s'.clock && s.adopted <= s'.adopted && s.answers <= s'.answers
    && forall sub | sub in s.cache ::
         sub in s'.cache && s.cache[sub].fetchedAt <= s'.cache[sub].fetchedAt
  }

  lemma NextGrows(cfg: Config, s: State, a: Action)
    requires SharedOk(s)
    ensures Grows(s, Next(cfg, s, a))
  {
  }

  lemma FromCookieStays(cfg: Config, s: State, s': State, h: Headers, from: nat, id: Identity)
    requires Grows(s, s') && FromCookie(cfg, s, h, from, id)
    ensures FromCookie(cfg, s', h, from, id)
  {
    var v: nat, at: int :| from <= v < |s.adopted| && at <= s.clock && CookieShows(cfg, s.adopted[v], h, at, id);
    assert s'.adopted[v] == s.adopted[v];
  }

  /** Other goroutines' steps cannot invalidate what a call holds. */
  lemma CallStays(cfg: Config, s: State, s': State, c: Call)
    requires Grows(s, s') && CallOk(cfg, s, c)
    ensures CallOk(cfg, s', c)
  {
    if FromCookie(cfg, s, c.headers, c.access.view.version, c.identity) {
      FromCookieStays(cfg, s, s', c.headers, c.access.view.version, c.identity);
    }
  }

  /** Up to the verdict on the access token. */
  lemma AccessStepOk(cfg: Config, s: State, c: Call, outcome: FetchOutcome)
    requires SharedOk(s) && CallOk(cfg, s, c)
    requires c.phase.Starting? || c.phase.ReadingKeys? || c.phase.Verifying?
    ensures CallOk(cfg, s, Stepped(cfg, s, c, outcome))
  {
  }

  /** The display cookie, up to the verdict on its token. */
  lemma CookieStepOk(cfg: Config, s: State, c: Call, outcome: FetchOutcome)
    requires SharedOk(s) && CallOk(cfg, s, c)
    requires c.phase.Displaying? || c.phase.ReadingCookieKeys? || c.phase.VerifyingCookie?
    ensures CallOk(cfg, s, Stepped(cfg, s, c, outcome))
  {
    var c' := Stepped(cfg, s, c, outcome);
    if c.phase.VerifyingCookie? && c'.identity != c.identity {
      assert CookieShows(cfg, s.adopted[c.phase.view.version], c.headers, s.clock, c'.identity);
      assert FromCookie(cfg, s, c.headers, c.access.view.version, c'.identity);
    }
  }

  /** The userinfo fallback, around the fetch itself. */
  lemma UserinfoStepOk(cfg: Config, s: State, c: Call, outcome: FetchOutcome)
    requires SharedOk(s) && CallOk(cfg, s, c)
    requires c.phase.FallingBack? || c.phase.LookingUp? || c.phase.Deciding? || c.phase.Storing? || c.phase.Done?
    ensures CallOk(cfg, s, Stepped(cfg, s, c, outcome))
  {
  }

  /** The fetch, whose answer the state now has on record. */
  lemma FetchStepOk(cfg: Config, s: State, c: Call, outcome: FetchOutcome)
    requires SharedOk(s) && CallOk(cfg, s, c) && c.phase.Fetching?
    requires outcome.Answered? ==> outcome.answer in s.answers
    ensures CallOk(cfg, s, Stepped(cfg, s, c, outcome))
  {
  }

  lemma NextKeepsShared(cfg: Config, s: State, a: Action)
    requires Inv(cfg, s)
    ensures SharedOk(Next(cfg, s, a))
  {
    assert a.Advance? && a.id in s.calls ==> CallOk(cfg, s, s.calls[a.id]);
  }

  /** A call's own step keeps what it holds. */
  lemma StepOk(cfg: Config, s: State, id: nat, outcome: FetchOutcome)
    requires Inv(cfg, s) && id in s.calls
    ensures var s' := Next(cfg, s, Advance(id, outcome)); CallOk(cfg, s', s'.calls[id])
  {
    var c, s' := s.calls[id], Next(cfg, s, Advance(id, outcome));
    NextGrows(cfg, s, Advance(id, outcome));
    if c.phase.Fetching? {
      // the fetch step reads nothing shared, so it can be taken in the state that has the answer
      NextKeepsShared(cfg, s, Advance(id, outcome));
      CallStays(cfg, s, s', c);
      FetchStepOk(cfg, s', c, outcome);
    } else {
      if c.phase.Starting? || c.phase.ReadingKeys? || c.phase.Verifying? {
        AccessStepOk(cfg, s, c, outcome);
      } else if c.phase.Displaying? || c.phase.ReadingCookieKeys? || c.phase.VerifyingCookie? {
        CookieStepOk(cfg, s, c, outcome);
      } else {
        UserinfoStepOk(cfg, s, c, outcome);
      }
      CallStays(cfg, s, s', Stepped(cfg, s, c, outcome));
    }
  }

  lemma NextKeepsInv(cfg: Config, s: State, a: Action)
    requires Inv(cfg, s)
    ensures Inv(cfg, Next(cfg, s, a))
  {
    var s' := Next(cfg, s, a);
    NextGrows(cfg, s, a);
    NextKeepsShared(cfg, s, a);
    forall id | id in s'.calls
      ensures CallOk(cfg, s', s'.calls[id])
    {
      if id in s.calls {
        if a.Advance? && a.id == id {
          StepOk(cfg, s, id, a.outcome);
        } else {
          CallStays(cfg, s, s', s.calls[id]);
        }
      }
    }
  }

  /** Every state of every run, whatever the interleaving, the fetches and the clock do. */
  lemma {:induction false} Reachable(cfg: Config, first: JwksOutcome, clock: int, actions: seq<Action>, i: nat)
    requires first.Usable() && i <= |actions|
    ensures Inv(cfg, After(cfg, Boot(first, clock).value, actions, i))
  {
    if i > 0 {
      Reachable(cfg, first, clock, actions, i - 1);
      NextKeepsInv(cfg, After(cfg, Boot(first, clock).value, actions, i - 1), actions[i - 1]);
    }
  }

  // ----- A run of the runtime ---------------------------------------------------------------

  datatype Run = Run(cfg: Config, first: JwksOutcome, clock: int, actions: seq<Action>) {
    predicate Valid() {
      first.Usable()
    }

    function At(i: nat): (s: State)
      requires Valid() && i <= |actions|
      ensures |s.adopted| > 0
    {
      After(cfg, Boot(first, clock).value, actions, i)
    }

    function End(): State
      requires Valid()
    {
      At(|actions|)
    }

    lemma Holds(i: nat)
      requires Valid() && i <= |actions|
      ensures Inv(cfg, At(i))
    {
      Reachable(cfg, first, clock, actions, i);
    }

    lemma Steps(i: nat)
      requires Valid() && i < |actions|
      ensures At(i + 1) == Next(cfg, At(i), actions[i])
    {
    }
  }
}
