/** Runs built one action at a time, of calls for one subject that get as far as asking userinfo. */
module Scenarios {
  import opened Wrappers
  import opened Text
  import opened Sources
  import opened Claims
  import opened KeySets
  import opened Userinfo
  import opened Verifier
  import opened Runtime
  import opened FetchBound

  const SUBJECT := "u"

  /** An issuer whose tokens carry a subject and nothing to display. */
  const NAMELESS_ISSUER := Config(
    (keys: Jwks, raw: string, issuer: string, audience: Option<string>, now: int) => Some(Token(SUBJECT, map[])),
    DEFAULT_SOURCE, Mapper("", "", ""), "issuer", "", true, "")

  const REQUEST: Headers := map[ACCESS_TOKEN := "t"]

  const VERIFIED := Identity(SUBJECT, "", "", [], "t", map[])

  /** The `n` call numbers from `lo` on. */
  ghost function Range(lo: nat, n: nat): (ids: set<nat>)
    ensures |ids| == n && forall id: nat :: id in ids <==> lo <= id < lo + n
  {
    if n == 0 then {} else Range(lo, n - 1) + {lo + n - 1}
  }

  /** Only the calls in `ids`, if any, are still under way. */
  ghost predicate Quiet(s: State, ids: set<nat>) {
    forall other | other in s.calls && other !in ids :: s.calls[other].phase.Done?
  }

  /** A run of this issuer that has never had more calls filling than `ids` holds, and has only those under way. */
  ghost predicate Ready(r: Run, ids: set<nat>) {
    r.Valid() && r.cfg == NAMELESS_ISSUER && AtMost(r, SUBJECT, |ids|) && Quiet(r.End(), ids)
  }

  lemma {:induction false} PrefixOfRun(r: Run, a: Action, i: nat)
    requires r.Valid() && i <= |r.actions|
    ensures r.(actions := r.actions + [a]).At(i) == r.At(i)
  {
    if i > 0 {
      PrefixOfRun(r, a, i - 1);
    }
  }

  /** One more action: time passes, or a call under way moves. */
  lemma Extended(r: Run, ids: set<nat>, a: Action) returns (r': Run)
    requires Ready(r, ids)
    requires a.Tick? || (a.Arrive? && a.id in ids) || (a.Advance? && a.id in ids)
    ensures r' == r.(actions := r.actions + [a]) && Ready(r', ids)
    ensures r'.End() == Next(r.cfg, r.End(), a)
  {
    r' := r.(actions := r.actions + [a]);
    PrefixOfRun(r, a, |r.actions|);
    forall i: nat | i <= |r'.actions|
      ensures |Filling(r'.At(i), SUBJECT)| <= |ids|
    {
      if i <= |r.actions| {
        PrefixOfRun(r, a, i);
      } else {
        SubsetSize(Filling(r'.At(i), SUBJECT), ids);
      }
    }
  }

  /** The same start, the same time now, and nothing but call `id` differs; the cache is told apart. */
  ghost predicate Moved(r: Run, r': Run, id: nat) {
    && r.Valid() && r'.Valid() && r'.first == r.first && r'.clock == r.clock
    && r'.End().clock == r.End().clock
    && forall other | other != id ::
         && (other in r'.End().calls <==> other in r.End().calls)
         && (other in r.End().calls ==> r'.End().calls[other] == r.End().calls[other])
  }

  ghost predicate Going(r: Run, ids: set<nat>, id: nat, c: Call) {
    Ready(r, ids) && id in ids && id in r.End().calls && r.End().calls[id] == c
  }

  /** A call's next step, which stores nothing. */
  lemma OneStep(r: Run, ids: set<nat>, id: nat, c: Call, outcome: FetchOutcome) returns (r': Run, c': Call)
    requires Going(r, ids, id, c) && !c.phase.Storing?
    ensures Going(r', ids, id, c') && c' == Stepped(r.cfg, r.End(), c, outcome)
    ensures Moved(r, r', id) && r'.End().cache == r.End().cache
  {
    r' := Extended(r, ids, Advance(id, outcome));
    c' := r'.End().calls[id];
  }

  lemma RequestIsRead()
    ensures Extracted(DEFAULT_SOURCE, REQUEST) == Some("t")
  {
    TrimIsTrimmed("t");
    DefaultTokenCases(REQUEST);
  }

  lemma Arrives(r: Run, ids: set<nat>, id: nat) returns (r': Run, c: Call)
    requires Ready(r, ids) && id in ids && id !in r.End().calls
    ensures Going(r', ids, id, c) && c == NewCall(REQUEST, c.arrival)
    ensures Moved(r, r', id) && r'.End().cache == r.End().cache
  {
    r' := Extended(r, ids, Arrive(id, REQUEST));
    c := r'.End().calls[id];
  }

  /** From arrival to a verified identity with nothing to display. */
  lemma Verifies(r: Run, ids: set<nat>, id: nat, arrived: Call) returns (r': Run, c: Call)
    requires Going(r, ids, id, arrived) && arrived == NewCall(REQUEST, arrived.arrival)
    ensures Going(r', ids, id, c) && c.phase.Displaying? && c.identity == VERIFIED
    ensures Moved(r, r', id) && r'.End().cache == r.End().cache
  {
    RequestIsRead();
    r', c := r, arrived;
    r', c := OneStep(r', ids, id, c, Refused);
    assert c.phase.ReadingKeys? && c.raw == "t";
    r', c := OneStep(r', ids, id, c, Refused);
    assert c.phase.Verifying? && c.raw == "t";
    r', c := OneStep(r', ids, id, c, Refused);
  }

  lemma NoCookieStep(s: State, c: Call)
    requires |s.adopted| > 0 && c.identity == VERIFIED
    ensures c.phase.Displaying? ==> Stepped(NAMELESS_ISSUER, s, c, Refused) == c.(phase := FallingBack)
    ensures c.phase.FallingBack? ==> Stepped(NAMELESS_ISSUER, s, c, Refused) == c.(phase := LookingUp)
  {
  }

  /** From there, past the disabled cookie fallback, to the userinfo one. */
  lemma FallsBack(r: Run, ids: set<nat>, id: nat, verified: Call) returns (r': Run, c: Call)
    requires Going(r, ids, id, verified) && verified.phase.Displaying? && verified.identity == VERIFIED
    ensures Going(r', ids, id, c) && c.phase.LookingUp? && c.identity == VERIFIED
    ensures Moved(r, r', id) && r'.End().cache == r.End().cache
  {
    NoCookieStep(r.End(), verified);
    r', c := OneStep(r, ids, id, verified, Refused);
    NoCookieStep(r'.End(), c);
    r', c := OneStep(r', ids, id, c, Refused);
  }

  /** The cache holds nothing fresh for the subject. */
  predicate NothingFresh(s: State) {
    !Fresh(Copied(s.cache, SUBJECT), s.clock)
  }

  /** The call has sent its request at `t`. */
  predicate HasAsked(c: Call, t: int) {
    c.phase.Fetching? && c.phase.startedAt == t && c.identity == VERIFIED
  }

  lemma LooksUp(r: Run, ids: set<nat>, id: nat, falling: Call) returns (r': Run, c: Call)
    requires Going(r, ids, id, falling) && falling.phase.LookingUp? && falling.identity == VERIFIED
    requires NothingFresh(r.End())
    ensures Going(r', ids, id, c) && HasAsked(c, r.End().clock)
    ensures Moved(r, r', id) && r'.End().cache == r.End().cache
  {
    r', c := OneStep(r, ids, id, falling, Refused);
    assert c.phase == Deciding(Copied(r.End().cache, SUBJECT));
    r', c := OneStep(r', ids, id, c, Refused);
  }

  /** A call that comes in while the cache has nothing fresh gets as far as its request. */
  lemma Asks(r: Run, ids: set<nat>, id: nat) returns (r': Run, c: Call)
    requires Ready(r, ids) && id in ids && id !in r.End().calls && NothingFresh(r.End())
    ensures Going(r', ids, id, c) && HasAsked(c, r.End().clock)
    ensures Moved(r, r', id) && r'.End().cache == r.End().cache
  {
    r', c := Arrives(r, ids, id);
    r', c := Verifies(r', ids, id, c);
    r', c := FallsBack(r', ids, id, c);
    r', c := LooksUp(r', ids, id, c);
  }
}
