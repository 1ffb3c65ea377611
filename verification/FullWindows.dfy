/** Runs that reach the fetch bound: k calls at a time, all asking at once, once per TTL (userinfo.go). */
module FullWindows {
  import opened Wrappers
  import opened KeySets
  import opened Userinfo
  import opened Verifier
  import opened Runtime
  import opened FetchBound
  import opened Scenarios

  const ANSWER := Answer(SUBJECT, "n", "e")

  /** The call's answer is stored; its request started at `t`. */
  predicate HasStored(c: Call, t: int) {
    c.phase.Done? && LiveSince(c) == Some(t) && c.identity.subject == SUBJECT
  }

  lemma StoringNext(cfg: Config, s: State, id: nat)
    requires |s.adopted| > 0 && id in s.calls && s.calls[id].phase.Storing?
    requires s.calls[id].identity.subject == SUBJECT && s.calls[id].phase.answer == ANSWER
    ensures var s' := Next(cfg, s, Advance(id, Refused));
            && s'.clock == s.clock && s'.cache == Remembered(s.cache, ANSWER, s.clock)
            && s'.calls == s.calls[id := s'.calls[id]] && HasStored(s'.calls[id], s.calls[id].phase.startedAt)
  {
  }

  lemma StoreStepOf(r: Run, ids: set<nat>, id: nat, c: Call) returns (r': Run)
    requires Going(r, ids, id, c) && c.phase.Storing? && c.identity.subject == SUBJECT && c.phase.answer == ANSWER
    ensures Ready(r', ids) && Moved(r, r', id) && id in r'.End().calls
    ensures HasStored(r'.End().calls[id], c.phase.startedAt)
    ensures r'.End().cache == Remembered(r.End().cache, ANSWER, r.End().clock)
  {
    StoringNext(r.cfg, r.End(), id);
    r' := Extended(r, ids, Advance(id, Refused));
  }

  /** A request answered and the answer stored, at one instant. */
  lemma Stores(r: Run, ids: set<nat>, id: nat, t: int) returns (r': Run)
    requires Ready(r, ids) && id in ids && id in r.End().calls && HasAsked(r.End().calls[id], t)
    ensures Ready(r', ids) && Moved(r, r', id) && id in r'.End().calls && HasStored(r'.End().calls[id], t)
    ensures r'.End().cache == Remembered(r.End().cache, ANSWER, r.End().clock)
  {
    var c;
    r', c := OneStep(r, ids, id, r.End().calls[id], Answered(ANSWER));
    r' := StoreStepOf(r', ids, id, c);
  }

  /** Same start and time, and the same calls below `lo`. */
  ghost predicate SameBelow(r: Run, r': Run, lo: nat) {
    && r.Valid() && r'.Valid() && r'.first == r.first && r'.clock == r.clock && r'.End().clock == r.End().clock
    && forall id: nat | id < lo && id in r.End().calls ::
         id in r'.End().calls && r'.End().calls[id] == r.End().calls[id]
  }

  ghost predicate Numbered(s: State, n: nat) {
    forall id: nat :: id in s.calls <==> id < n
  }

  ghost predicate AllAsked(s: State, lo: nat, hi: nat, t: int) {
    forall id: nat | lo <= id < hi :: id in s.calls && HasAsked(s.calls[id], t)
  }

  ghost predicate AllStored(s: State, lo: nat, hi: nat, t: int) {
    forall id: nat | lo <= id < hi :: id in s.calls && HasStored(s.calls[id], t)
  }

  /** The first `n` calls of a batch of `k` come in and ask. */
  lemma {:induction false} AskAll(r: Run, lo: nat, k: nat, n: nat) returns (r': Run)
    requires n <= k && Ready(r, Range(lo, k)) && Numbered(r.End(), lo) && NothingFresh(r.End())
    ensures Ready(r', Range(lo, k)) && Numbered(r'.End(), lo + n)
    ensures SameBelow(r, r', lo) && r'.End().cache == r.End().cache
    ensures AllAsked(r'.End(), lo, lo + n, r.End().clock)
  {
    r' := r;
    if n > 0 {
      r' := AskAll(r, lo, k, n - 1);
      var c;
      r', c := Asks(r', Range(lo, k), lo + n - 1);
    }
  }

  lemma OneMoreStored(r: Run, r': Run, lo: nat, k: nat, n: nat, t: int)
    requires n < k && Moved(r, r', lo + n) && Numbered(r.End(), lo + k)
    requires AllStored(r.End(), lo, lo + n, t) && AllAsked(r.End(), lo + n, lo + k, t)
    requires lo + n in r'.End().calls && HasStored(r'.End().calls[lo + n], t)
    ensures AllStored(r'.End(), lo, lo + n + 1, t) && AllAsked(r'.End(), lo + n + 1, lo + k, t)
    ensures Numbered(r'.End(), lo + k) && SameBelow(r, r', lo)
  {
  }

  /** The first `n` of them are answered and store. */
  lemma {:induction false} StoreAll(r: Run, lo: nat, k: nat, n: nat) returns (r': Run)
    requires n <= k && Ready(r, Range(lo, k)) && Numbered(r.End(), lo + k)
    requires AllAsked(r.End(), lo, lo + k, r.End().clock)
    ensures Ready(r', Range(lo, k)) && Numbered(r'.End(), lo + k) && SameBelow(r, r', lo)
    ensures AllStored(r'.End(), lo, lo + n, r.End().clock) && AllAsked(r'.End(), lo + n, lo + k, r.End().clock)
    ensures r'.End().cache ==
            if n == 0 then r.End().cache else Remembered(r.End().cache, ANSWER, r.End().clock)
  {
    r' := r;
    if n > 0 {
      var before := StoreAll(r, lo, k, n - 1);
      r' := Stores(before, Range(lo, k), lo + n - 1, r.End().clock);
      OneMoreStored(before, r', lo, k, n - 1, r.End().clock);
    }
  }

  /** The first `n` calls are done, and stored the answers to requests started in [lo, hi). */
  ghost predicate AllDone(s: State, n: nat, lo: int, hi: int) {
    forall id: nat | id < n ::
      && id in s.calls && s.calls[id].phase.Done? && s.calls[id].identity.subject == SUBJECT
      && Within(LiveSince(s.calls[id]), lo, hi)
  }

  /** A finished run of `n` calls in `b` batches, one TTL apart, whose last answers have just gone stale. */
  ghost predicate Batched(r: Run, b: nat, n: nat, k: nat) {
    && r.Valid() && r.cfg == NAMELESS_ISSUER && AtMost(r, SUBJECT, k) && Quiet(r.End(), {})
    && r.End().clock == r.clock + b * TTL && NothingFresh(r.End()) && Numbered(r.End(), n)
    && AllDone(r.End(), n, r.clock, r.clock + (b - 1) * TTL + 1)
  }

  /** Calls done before a batch stay so, and the batch adds its own. */
  lemma BatchIsDone(r: Run, stored: Run, n: nat, k: nat, lo: int, hi: int)
    requires SameBelow(r, stored, n) && AllDone(r.End(), n, lo, hi) && AllStored(stored.End(), n, n + k, r.End().clock)
    requires lo <= r.End().clock && hi <= r.End().clock + 1
    ensures AllDone(stored.End(), n + k, lo, r.End().clock + 1)
  {
  }

  /** Once its calls are done, only the time of a batch's answers is left to pass. */
  lemma BatchIsOver(stored: Run, r': Run, n: nat, lo: int, hi: int)
    requires stored.Valid() && r'.Valid() && r'.End() == Next(stored.cfg, stored.End(), Tick(TTL))
    requires AllDone(stored.End(), n, lo, hi) && Numbered(stored.End(), n)
    ensures AllDone(r'.End(), n, lo, hi) && Numbered(r'.End(), n) && Quiet(r'.End(), {})
    ensures r'.End().clock == stored.End().clock + TTL && r'.End().cache == stored.End().cache
  {
  }

  /** The next batch asks and stores, at one instant. */
  lemma BatchStores(r: Run, b: nat, n: nat, k: nat) returns (stored: Run)
    requires Batched(r, b, n, k)
    ensures Ready(stored, Range(n, k)) && Numbered(stored.End(), n + k)
    ensures stored.first == r.first && stored.clock == r.clock && stored.End().clock == r.End().clock
    ensures AllDone(stored.End(), n + k, r.clock, r.End().clock + 1)
    ensures stored.End().cache == if k == 0 then r.End().cache else Remembered(r.End().cache, ANSWER, r.End().clock)
  {
    var asked := AskAll(r, n, k, k);
    stored := StoreAll(asked, n, k, k);
    BatchIsDone(r, stored, n, k, r.clock, r.clock + (b - 1) * TTL + 1);
  }

  lemma OneBatch(r: Run, b: nat, n: nat, k: nat) returns (r': Run)
    requires Batched(r, b, n, k)
    ensures Batched(r', b + 1, n + k, k) && r'.first == r.first && r'.clock == r.clock
  {
    var stored := BatchStores(r, b, n, k);
    r' := Extended(stored, Range(n, k), Tick(TTL));
    BatchIsOver(stored, r', n + k, r.clock, r.End().clock + 1);
  }

  lemma {:induction false} Batches(first: JwksOutcome, clock: int, b: nat, k: nat) returns (r: Run)
    requires first.Usable()
    ensures r.first == first && r.clock == clock && Batched(r, b, b * k, k)
  {
    if b == 0 {
      r := Run(NAMELESS_ISSUER, first, clock, []);
      assert Filling(r.At(0), SUBJECT) == {};
    } else {
      r := Batches(first, clock, b - 1, k);
      r := OneBatch(r, b - 1, (b - 1) * k, k);
      assert (b - 1) * k + k == b * k;
    }
  }

  /**
    The fetch bound is reached: for every k and every window there is a run with at most k calls
    filling that starts exactly k * (1 + length / TTL) requests in it, none of which fails.
   */
  lemma FetchBoundIsReached(first: JwksOutcome, clock: int, length: nat, k: nat) returns (r: Run)
    requires first.Usable()
    ensures r.Valid() && AtMost(r, SUBJECT, k)
    ensures |Live(r.End(), SUBJECT, clock, clock + length + 1)| == k * (1 + length / TTL)
  {
    var b := 1 + length / TTL;
    r := Batches(first, clock, b, k);
    assert (b - 1) * TTL <= length;
    assert Live(r.End(), SUBJECT, clock, clock + length + 1) == Range(0, b * k);
  }
}
