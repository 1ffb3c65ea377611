/** The issuer's public keys and their background refresh (keyset.go). */
module KeySets {
  type Jwk = string
  type Jwks = seq<Jwk>

  /** A fetch fails for any reason (transport, status, size, syntax) or yields a parsed set. */
  datatype JwksOutcome = Unavailable | Parsed(keys: Jwks) {
    /** An empty set verifies nothing, so it counts as a failure. */
    predicate Usable() {
      Parsed? && |keys| > 0
    }
  }

  function Refreshed(keys: Jwks, outcome: JwksOutcome): Jwks {
    if outcome.Usable() then outcome.keys else keys
  }

  /** What the sets fetched so far say the current set is: the last usable one. */
  function LastUsable(first: Jwks, outcomes: seq<JwksOutcome>): Jwks {
    if outcomes == [] then first
    else if outcomes[|outcomes| - 1].Usable() then outcomes[|outcomes| - 1].keys
    else LastUsable(first, outcomes[..|outcomes| - 1])
  }

  /** The outcomes after which a key set stays as it was: a failure, or a set with no keys. */
  predicate KeepsKeys(outcome: JwksOutcome) {
    outcome == Unavailable || outcome == Parsed([])
  }

  /** Every non-empty set replaces the one before; nothing else does. */
  lemma RefreshedExactlyWhen(keys: Jwks, outcome: JwksOutcome)
    ensures KeepsKeys(outcome) ==> Refreshed(keys, outcome) == keys
    ensures !KeepsKeys(outcome) ==> Parsed(Refreshed(keys, outcome)) == outcome
  {
  }

  /** The last outcome that does not keep the keys decides, if there is one. */
  lemma {:induction false} LastSetDecides(first: Jwks, before: seq<JwksOutcome>, set': Jwks, after: seq<JwksOutcome>)
    requires set' != [] && forall i | 0 <= i < |after| :: KeepsKeys(after[i])
    ensures LastUsable(first, before + [Parsed(set')] + after) == set'
    ensures LastUsable(first, after) == first
  {
    var all := before + [Parsed(set')] + after;
    if after == [] {
      assert all[|all| - 1] == Parsed(set');
    } else {
      var fewer := after[..|after| - 1];
      assert all[..|all| - 1] == before + [Parsed(set')] + fewer;
      assert all[|all| - 1] == after[|after| - 1];
      LastSetDecides(first, before, set', fewer);
    }
  }

  class KeySet {
    var keys: Jwks

    constructor ()
      ensures keys == []
    {
      keys := [];
    }

    method Refresh(outcome: JwksOutcome) returns (ok: bool)
      modifies this
      ensures keys == Refreshed(old(keys), outcome)
      ensures outcome == Unavailable || outcome == Parsed([]) ==> !ok && keys == old(keys)
      ensures outcome.Parsed? && outcome.keys != [] ==> ok && keys == outcome.keys
    {
      match outcome
      case Unavailable => return false;
      case Parsed(fetched) =>
        if |fetched| == 0 {
          return false;
        }
        keys := fetched;
        return true;
    }

    method Set() returns (current: Jwks)
      ensures current == keys
    {
      current := keys;
    }

    /** `refreshLoop`: one refresh per tick until the context ends; a failure is only logged. */
    method RefreshLoop(ticks: seq<JwksOutcome>)
      modifies this
      ensures keys == LastUsable(old(keys), ticks)
      ensures old(keys) != [] ==> keys != []
    {
      for i := 0 to |ticks|
        invariant keys == LastUsable(old(keys), ticks[..i])
        invariant old(keys) != [] ==> keys != []
      {
        var _ := Refresh(ticks[i]);
        assert ticks[..i + 1][..i] == ticks[..i];
      }
      assert ticks[..|ticks|] == ticks;
    }
  }

  /** `newKeySet`: no key set without a first usable fetch. */
  method NewKeySet(first: JwksOutcome) returns (ks: KeySet?)
    ensures ks == null <==> first == Unavailable || first == Parsed([])
    ensures ks != null ==> fresh(ks) && Parsed(ks.keys) == first
  {
    var k := new KeySet();
    var ok := k.Refresh(first);
    ks := if ok then k else null;
  }
}
