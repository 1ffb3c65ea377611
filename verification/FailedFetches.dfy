/** Why the fetch bound counts failures apart: a failed userinfo request leaves no trace in the cache (userinfo.go). */
module FailedFetches {
  import opened Wrappers
  import opened KeySets
  import opened Userinfo
  import opened Runtime
  import opened FetchBound
  import opened Scenarios

  /** A finished run in which everything so far happened at one instant and failed. */
  ghost predicate AllFailed(r: Run, n: nat) {
    && r.Valid() && r.cfg == NAMELESS_ISSUER && AtMost(r, SUBJECT, 1) && Quiet(r.End(), {})
    && r.End().clock == r.clock && r.End().cache == map[]
    && (forall id: nat :: id in r.End().calls <==> id < n)
    && forall id: nat | id < n ::
         FailedAt(r.End().calls[id]) == Some(r.clock) && r.End().calls[id].identity.subject == SUBJECT
  }

  /** One whole call: it arrives, is verified, asks and is refused. */
  lemma OneFailure(r: Run, id: nat) returns (r': Run)
    requires Ready(r, {id}) && id !in r.End().calls && NothingFresh(r.End())
    ensures Ready(r', {id}) && Moved(r, r', id) && r'.End().cache == r.End().cache
    ensures id in r'.End().calls && FailedAt(r'.End().calls[id]) == Some(r.End().clock)
    ensures r'.End().calls[id].identity.subject == SUBJECT
  {
    var c;
    r', c := Asks(r, {id}, id);
    r', c := OneStep(r', {id}, id, c, Refused);
  }

  lemma {:induction false} ManyFailures(first: JwksOutcome, clock: int, n: nat) returns (r: Run)
    requires first.Usable()
    ensures r.first == first && r.clock == clock && AllFailed(r, n)
  {
    if n == 0 {
      r := Run(NAMELESS_ISSUER, first, clock, []);
      assert Filling(r.At(0), SUBJECT) == {};
    } else {
      r := ManyFailures(first, clock, n - 1);
      r := OneFailure(r, n - 1);
    }
  }

  /**
    With one call at a time, any number of requests for one subject can be made at one instant when
    they fail: nothing but the failures themselves bounds them.
   */
  lemma FailuresAreNotCached(first: JwksOutcome, clock: int, n: nat) returns (r: Run)
    requires first.Usable()
    ensures r.Valid() && AtMost(r, SUBJECT, 1)
    ensures |Requests(r.End(), SUBJECT, clock, clock + 1)| == n
  {
    r := ManyFailures(first, clock, n);
    assert Requests(r.End(), SUBJECT, clock, clock + 1) == Range(0, n);
  }
}
