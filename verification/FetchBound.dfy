/**
  How often the userinfo endpoint is asked (userinfo.go), over every interleaving: at most k calls
  in flight for a subject start at most k requests per TTL that do not fail.
 */
module FetchBound {
  import opened Wrappers
  import opened Userinfo
  import opened Verifier
  import opened Runtime

  // ----- Counting --------------------------------------------------------------------------

  /** Between copying the cache entry and returning. */
  predicate InFill(c: Call) {
    c.phase.Deciding? || c.phase.Fetching? || c.phase.Storing?
  }

  ghost function Filling(s: State, sub: string): set<nat> {
    set id | id in s.calls && InFill(s.calls[id]) && s.calls[id].identity.subject == sub
  }

  function FailedAt(c: Call): Option<int> {
    if c.phase.Done? && c.phase.fetch.Failed? then Some(c.phase.fetch.startedAt) else None
  }

  /** When a request that has not failed was started: it is under way, or its answer was stored. */
  function LiveSince(c: Call): Option<int> {
    match c.phase
    case Fetching(_, t) => Some(t)
    case Storing(_, t, _) => Some(t)
    case Done(_, Stored(_, t)) => Some(t)
    case _ => None
  }

  predicate Within(t: Option<int>, lo: int, hi: int) {
    t.Some? && lo <= t.value < hi
  }

  /** Requests for `sub` started in [lo, hi) that have not failed. */
  ghost function Live(s: State, sub: string, lo: int, hi: int): set<nat> {
    set id | id in s.calls && s.calls[id].identity.subject == sub && Within(LiveSince(s.calls[id]), lo, hi)
  }

  ghost function Failures(s: State, sub: string, lo: int, hi: int): set<nat> {
    set id | id in s.calls && s.calls[id].identity.subject == sub && Within(FailedAt(s.calls[id]), lo, hi)
  }

  /** All requests for `sub` started in [lo, hi). */
  ghost function Requests(s: State, sub: string, lo: int, hi: int): set<nat> {
    set id | id in s.calls && s.calls[id].identity.subject == sub &&
             (Within(LiveSince(s.calls[id]), lo, hi) || Within(FailedAt(s.calls[id]), lo, hi))
  }

  lemma {:induction false} SubsetSize<T>(a: set<T>, b: set<T>)
    requires a <= b
    ensures |a| <= |b|
  {
    if a != {} {
      var x :| x in a;
      SubsetSize(a - {x}, b - {x});
    }
  }

  lemma UnionSize<T>(a: set<T>, b: set<T>)
    ensures |a + b| <= |a| + |b|
  {
    SubsetSize(b - a, b);
    assert a + b == a + (b - a);
  }

  /** At most `k` calls for `sub` are filling at any moment of the run. */
  ghost predicate AtMost(r: Run, sub: string, k: nat)
    requires r.Valid()
  {
    forall i: nat | i <= |r.actions| :: |Filling(r.At(i), sub)| <= k
  }

  // ----- One call across a run ---------------------------------------------------------------

  predicate Settled(c: Call) {
    InFill(c) || c.phase.Done?
  }

  lemma SettledStep(cfg: Config, s: State, c: Call, outcome: FetchOutcome)
    requires |s.adopted| > 0 && Settled(c)
    ensures var c' := Stepped(cfg, s, c, outcome);
            && Settled(c') && c'.identity.subject == c.identity.subject
            && (c.phase.Done? ==> c' == c)
  {
  }

  /** A call that has looked up keeps its subject, and a finished call keeps everything. */
  lemma {:induction false} CallPersists(r: Run, id: nat, i: nat, j: nat)
    requires r.Valid() && i <= j <= |r.actions|
    requires id in r.At(i).calls && Settled(r.At(i).calls[id])
    ensures var c := r.At(i).calls[id];
            && id in r.At(j).calls
            && var c' := r.At(j).calls[id];
            && Settled(c') && c'.identity.subject == c.identity.subject
            && (c.phase.Done? ==> c' == c)
  {
    if i < j {
      CallPersists(r, id, i, j - 1);
      r.Steps(j - 1);
      var s, a := r.At(j - 1), r.actions[j - 1];
      if a.Advance? && a.id == id {
        SettledStep(r.cfg, s, s.calls[id], a.outcome);
      } else {
        assert Next(r.cfg, s, a).calls[id] == s.calls[id];
      }
    }
  }

  predicate SeenSince(seen: Option<Entry>, t: int) {
    seen.Some? && seen.value.fetchedAt >= t
  }

  /** If the call has copied the entry of `sub`, it copied one stored at `t` or later. */
  predicate SawSince(c: Call, sub: string, t: int) {
    c.identity.subject == sub ==>
      match c.phase
      case Deciding(seen) => SeenSince(seen, t)
      case Fetching(seen, _) => SeenSince(seen, t)
      case Storing(seen, _, _) => SeenSince(seen, t)
      case Done(_, Stored(seen, _)) => SeenSince(seen, t)
      case _ => true
  }

  ghost predicate Late(s: State, id: nat, sub: string, t: int) {
    && sub in s.cache && s.cache[sub].fetchedAt >= t
    && (id in s.calls ==> SawSince(s.calls[id], sub, t))
  }

  /** A call's own step can only copy what the cache holds at that moment. */
  lemma StepSees(cfg: Config, s: State, c: Call, outcome: FetchOutcome, sub: string, t: int)
    requires |s.adopted| > 0 && sub in s.cache && s.cache[sub].fetchedAt >= t
    requires SawSince(c, sub, t)
    ensures SawSince(Stepped(cfg, s, c, outcome), sub, t)
  {
  }

  lemma LateStep(cfg: Config, s: State, a: Action, id: nat, sub: string, t: int)
    requires |s.adopted| > 0 && Grows(s, Next(cfg, s, a)) && Late(s, id, sub, t)
    ensures Late(Next(cfg, s, a), id, sub, t)
  {
    if a.Advance? && a.id == id && id in s.calls {
      StepSees(cfg, s, s.calls[id], a.outcome, sub, t);
    } else {
      assert id in s.calls ==> Next(cfg, s, a).calls[id] == s.calls[id];
    }
  }

  /** A call that looks up after an entry was stored sees that entry or a newer one. */
  lemma {:induction false} StaysLate(r: Run, id: nat, sub: string, t: int, i: nat, j: nat)
    requires r.Valid() && i <= j <= |r.actions| && Late(r.At(i), id, sub, t)
    ensures Late(r.At(j), id, sub, t)
  {
    if i < j {
      StaysLate(r, id, sub, t, i, j - 1);
      r.Holds(j - 1);
      r.Steps(j - 1);
      NextGrows(r.cfg, r.At(j - 1), r.actions[j - 1]);
      LateStep(r.cfg, r.At(j - 1), r.actions[j - 1], id, sub, t);
    }
  }

  // ----- One TTL -----------------------------------------------------------------------------

  predicate IsStored(s: State, id: nat) {
    id in s.calls && s.calls[id].phase.Done? && s.calls[id].phase.fetch.Stored?
  }

  /** The first moment at which one of `ids` has stored its answer, if any has. */
  lemma {:induction false} FirstStore(r: Run, ids: set<nat>, n: nat) returns (j: nat)
    requires r.Valid() && n <= |r.actions|
    ensures j <= n && forall id | id in ids && j > 0 :: !IsStored(r.At(j - 1), id)
    ensures j == n || exists id :: id in ids && IsStored(r.At(j), id)
  {
    if n == 0 {
      j := 0;
    } else {
      j := FirstStore(r, ids, n - 1);
      if j == n - 1 && !(exists id :: id in ids && IsStored(r.At(j), id)) {
        j := n;
      }
    }
  }

  /** Only a call's own step out of the store's critical section makes it stored. */
  lemma StoreNext(cfg: Config, s: State, a: Action, id: nat)
    requires |s.adopted| > 0 && !IsStored(s, id) && IsStored(Next(cfg, s, a), id)
    ensures a.Advance? && a.id == id && id in s.calls && s.calls[id].phase.Storing?
    ensures var c, c' := s.calls[id], Next(cfg, s, a).calls[id];
            c'.identity == c.identity && c'.phase.fetch.startedAt == c.phase.startedAt
  {
  }

  /** The step at which `id` stores leaves an entry at least as new as the start of its request. */
  lemma StoreStep(r: Run, id: nat, sub: string, lo: int, j: nat)
    requires r.Valid() && 0 < j <= |r.actions|
    requires !IsStored(r.At(j - 1), id) && IsStored(r.At(j), id)
    requires var c := r.At(j).calls[id]; c.identity.subject == sub && c.phase.fetch.startedAt >= lo
    ensures r.actions[j - 1].Advance? && r.actions[j - 1].id == id && id in Filling(r.At(j - 1), sub)
    ensures sub in r.At(j).cache && r.At(j).cache[sub].fetchedAt >= lo
  {
    var s, a := r.At(j - 1), r.actions[j - 1];
    r.Holds(j - 1);
    r.Steps(j - 1);
    StoreNext(r.cfg, s, a, id);
    assert PhaseOk(r.cfg, s, s.calls[id]);
    assert Next(r.cfg, s, a).cache == Remembered(s.cache, s.calls[id].phase.answer, s.clock);
  }

  /** A call that had not looked up when a window's answer was stored asks again only after a TTL. */
  lemma LateCallsAreFresh(r: Run, sub: string, lo: int, hi: int, j: nat, id: nat)
    requires r.Valid() && hi - lo <= TTL && j <= |r.actions|
    requires Late(r.At(j), id, sub, lo)
    ensures id !in Live(r.End(), sub, lo, hi)
  {
    StaysLate(r, id, sub, lo, j, |r.actions|);
    r.Holds(|r.actions|);
    if id in r.End().calls {
      assert PhaseOk(r.cfg, r.End(), r.End().calls[id]);
    }
  }

  /**
    All live requests started within one TTL were in flight together, at the moment just before
    the first of them stored its answer.
   */
  lemma LiveTogether(r: Run, sub: string, lo: int, hi: int, j: nat, id: nat, other: nat)
    requires r.Valid() && hi - lo <= TTL && 0 < j <= |r.actions|
    requires id in Live(r.End(), sub, lo, hi) && !IsStored(r.At(j - 1), id)
    requires other in Live(r.End(), sub, lo, hi)
    requires !IsStored(r.At(j - 1), other) && IsStored(r.At(j), other)
    ensures id in Filling(r.At(j - 1), sub)
  {
    CallPersists(r, other, j, |r.actions|);
    StoreStep(r, other, sub, lo, j);
    if id != other {
      var s := r.At(j - 1);
      if id in s.calls && Settled(s.calls[id]) {
        CallPersists(r, id, j - 1, |r.actions|);
      } else {
        r.Steps(j - 1);
        assert Late(r.At(j), id, sub, lo);
        LateCallsAreFresh(r, sub, lo, hi, j, id);
        assert false;
      }
    }
  }

  lemma BeforeFirstStore(r: Run, sub: string, lo: int, hi: int, k: nat, j: nat, other: nat)
    requires r.Valid() && AtMost(r, sub, k) && hi - lo <= TTL && 0 < j <= |r.actions|
    requires forall id | id in Live(r.End(), sub, lo, hi) :: !IsStored(r.At(j - 1), id)
    requires other in Live(r.End(), sub, lo, hi) && IsStored(r.At(j), other)
    ensures |Live(r.End(), sub, lo, hi)| <= k
  {
    forall id | id in Live(r.End(), sub, lo, hi)
      ensures id in Filling(r.At(j - 1), sub)
    {
      LiveTogether(r, sub, lo, hi, j, id, other);
    }
    SubsetSize(Live(r.End(), sub, lo, hi), Filling(r.At(j - 1), sub));
  }

  lemma OneTTL(r: Run, sub: string, lo: int, hi: int, k: nat)
    requires r.Valid() && AtMost(r, sub, k) && hi - lo <= TTL
    ensures |Live(r.End(), sub, lo, hi)| <= k
  {
    var n, live := |r.actions|, Live(r.End(), sub, lo, hi);
    var j := FirstStore(r, live, n);
    if other :| other in live && IsStored(r.At(j), other) {
      assert j > 0;
      BeforeFirstStore(r, sub, lo, hi, k, j, other);
    } else {
      assert live <= Filling(r.At(n), sub);
      SubsetSize(live, Filling(r.At(n), sub));
    }
  }

  // ----- Any window --------------------------------------------------------------------------

  lemma {:induction false} ManyTTLs(r: Run, sub: string, lo: int, m: nat, k: nat)
    requires r.Valid() && AtMost(r, sub, k)
    ensures |Live(r.End(), sub, lo, lo + m * TTL)| <= k * m
  {
    if m == 0 {
      assert Live(r.End(), sub, lo, lo) == {};
    } else {
      var s, mid := r.End(), lo + (m - 1) * TTL;
      assert mid + TTL == lo + m * TTL;
      assert Live(s, sub, lo, mid + TTL) == Live(s, sub, lo, mid) + Live(s, sub, mid, mid + TTL);
      UnionSize(Live(s, sub, lo, mid), Live(s, sub, mid, mid + TTL));
      ManyTTLs(r, sub, lo, m - 1, k);
      OneTTL(r, sub, mid, mid + TTL, k);
      assert k * m == k * (m - 1) + k;
    }
  }

  /** A window of `length` is covered by one TTL more than it holds. */
  lemma Covered(lo: int, length: nat)
    ensures lo + length + 1 <= lo + (1 + length / TTL) * TTL
  {
  }

  /** Every request is live or failed. */
  lemma RequestsSplit(s: State, sub: string, lo: int, hi: int)
    ensures |Requests(s, sub, lo, hi)| <= |Live(s, sub, lo, hi)| + |Failures(s, sub, lo, hi)|
  {
    UnionSize(Live(s, sub, lo, hi), Failures(s, sub, lo, hi));
    assert Requests(s, sub, lo, hi) == Live(s, sub, lo, hi) + Failures(s, sub, lo, hi);
  }

  lemma LiveInLess(s: State, sub: string, lo: int, hi: int, hi': int)
    requires hi <= hi'
    ensures |Live(s, sub, lo, hi)| <= |Live(s, sub, lo, hi')|
  {
    SubsetSize(Live(s, sub, lo, hi), Live(s, sub, lo, hi'));
  }

  /**
    The fetch bound. With at most `k` calls for a subject in flight, a window [lo, lo + length]
    sees at most k * (1 + length / TTL) requests that do not fail, in every interleaving, whatever
    stale copies the calls hold; every further request is one that failed, since failures are not
    cached.
   */
  lemma FetchBound(r: Run, sub: string, lo: int, length: nat, k: nat)
    requires r.Valid() && AtMost(r, sub, k)
    ensures |Live(r.End(), sub, lo, lo + length + 1)| <= k * (1 + length / TTL)
    ensures |Requests(r.End(), sub, lo, lo + length + 1)|
            <= k * (1 + length / TTL) + |Failures(r.End(), sub, lo, lo + length + 1)|
  {
    var m := 1 + length / TTL;
    Covered(lo, length);
    ManyTTLs(r, sub, lo, m, k);
    LiveInLess(r.End(), sub, lo, lo + length + 1, lo + m * TTL);
    RequestsSplit(r.End(), sub, lo, lo + length + 1);
  }

  /** With one call at a time, two requests that do not fail are at least one TTL apart. */
  lemma SequentialFetchesAreATTLApart(r: Run, sub: string, a: nat, b: nat)
    requires r.Valid() && AtMost(r, sub, 1) && a != b
    requires var calls := r.End().calls;
             && a in calls && calls[a].identity.subject == sub && LiveSince(calls[a]).Some?
             && b in calls && calls[b].identity.subject == sub && LiveSince(calls[b]).Some?
             && LiveSince(calls[a]).value <= LiveSince(calls[b]).value
    ensures var calls := r.End().calls;
            LiveSince(calls[b]).value - LiveSince(calls[a]).value >= TTL
  {
    var lo := LiveSince(r.End().calls[a]).value;
    if LiveSince(r.End().calls[b]).value < lo + TTL {
      OneTTL(r, sub, lo, lo + TTL, 1);
      SubsetSize({a, b}, Live(r.End(), sub, lo, lo + TTL));
      assert false;
    }
  }
}
