/** The per-subject cache of userinfo answers (userinfo.go). */
module Userinfo {
  import opened Wrappers
  import opened Claims

  /** `userinfoTTL`: one hour, in nanoseconds. */
  const TTL: int := 3_600_000_000_000

  datatype Entry = Entry(name: string, email: string, fetchedAt: int)

  type Cache = map<string, Entry>

  datatype Answer = Answer(sub: string, name: string, email: string)

  /** The request fails for any reason, or the endpoint answers for the token it was shown. */
  datatype FetchOutcome = Refused | Answered(answer: Answer) {
    predicate AnswersFor(subject: string) {
      Answered? && answer.sub == subject
    }
  }

  function Copied(cache: Cache, subject: string): Option<Entry> {
    if subject in cache then Some(cache[subject]) else None
  }

  predicate Fresh(seen: Option<Entry>, now: int) {
    seen.Some? && now - seen.value.fetchedAt < TTL
  }

  function Showing(identity: Identity, name: string, email: string): Identity {
    identity.(name := name, email := email)
  }

  function Remembered(cache: Cache, answer: Answer, now: int): Cache {
    cache[answer.sub := Entry(answer.name, answer.email, now)]
  }

  /** One `fill` that no other call interleaves with. */
  function Filled(cache: Cache, identity: Identity, decideAt: int, outcome: FetchOutcome, storeAt: int)
    : (Identity, Cache)
  {
    var seen := Copied(cache, identity.subject);
    if Fresh(seen, decideAt) then (Showing(identity, seen.value.name, seen.value.email), cache)
    else if outcome.AnswersFor(identity.subject) then
      (Showing(identity, outcome.answer.name, outcome.answer.email),
       Remembered(cache, outcome.answer, storeAt))
    else (identity, cache)
  }

  class UserinfoFetcher {
    var cache: Cache

    constructor ()
      ensures cache == map[]
    {
      cache := map[];
    }

    /** The first critical section: copy the entry. */
    method Copy(subject: string) returns (seen: Option<Entry>)
      ensures seen == Copied(cache, subject)
    {
      seen := if subject in cache then Some(cache[subject]) else None;
    }

    /** The second critical section: the clock is read while the lock is held. */
    method Remember(answer: Answer, now: int)
      modifies this
      ensures cache == Remembered(old(cache), answer, now)
    {
      cache := cache[answer.sub := Entry(answer.name, answer.email, now)];
    }

    method Fill(identity: Identity, decideAt: int, outcome: FetchOutcome, storeAt: int)
      returns (shown: Identity)
      modifies this
      ensures (shown, cache) == Filled(old(cache), identity, decideAt, outcome, storeAt)
    {
      shown := identity;
      var seen := Copy(identity.subject);
      if seen.Some? && decideAt - seen.value.fetchedAt < TTL {
        shown := shown.(name := seen.value.name, email := seen.value.email);
        return;
      }
      if outcome.Refused? {
        return;
      }
      if outcome.answer.sub != identity.subject {
        return;
      }
      shown := shown.(name := outcome.answer.name, email := outcome.answer.email);
      Remember(outcome.answer, storeAt);
    }
  }
}
