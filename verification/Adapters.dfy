/**
  The framework adapters (adapters/fibermw, adapters/humamw, ts/src/adapters.ts): what each one
  does to a request once the authenticator has answered.
 */
module Adapters {
  import opened Wrappers
  import opened Claims

  type Outcome = Result<Identity, AuthError>

  /** What a client can observe: the next handler ran, or an error response was written. */
  datatype Event = Ran(identity: Option<Identity>) | Wrote(status: int)

  class Exchange {
    var attached: Option<Identity>
    var events: seq<Event>

    method Attach(identity: Identity)
      modifies this`attached
      ensures attached == Some(identity)
    {
      attached := Some(identity);
    }

    method Next()
      modifies this`events
      ensures events == old(events) + [Ran(attached)]
    {
      events := events + [Ran(attached)];
    }

    method WriteError(status: int)
      modifies this`events
      ensures events == old(events) + [Wrote(status)]
    {
      events := events + [Wrote(status)];
    }
  }

  // ----- What a guard is for ----------------------------------------------------------------

  datatype Decision = Admit | Unauthorized | Forbidden

  /** Any-of `roles`, with role checks skipped when the authenticator is disabled. */
  ghost function Guard(answer: Outcome, enabled: bool, roles: seq<string>): Decision {
    if answer.Failure? then Unauthorized
    else if enabled && !(exists r :: r in roles && r in answer.value.roles) then Forbidden
    else Admit
  }

  /** The huma and express posture: any-of `roles`, and an empty list asks for no role. */
  ghost function OpenGuard(answer: Outcome, enabled: bool, roles: seq<string>): Decision {
    match answer
    case Failure(_) => Unauthorized
    case Success(caller) =>
      if !enabled || roles == [] || (set r | r in caller.roles) * (set r | r in roles) != {} then Admit else Forbidden
  }

  /** The two readings of any-of agree: a common role, or a common element. */
  lemma CommonRole(held: seq<string>, roles: seq<string>)
    ensures (set r | r in held) * (set r | r in roles) != {} <==> exists r :: r in roles && r in held
  {
    if r :| r in roles && r in held {
      assert r in (set r | r in held) * (set r | r in roles);
    }
  }

  /** One event per request: the handler runs with the caller attached, or one error is written. */
  ghost function Observed(decision: Decision, answer: Outcome): Event
    requires decision.Admit? ==> answer.Success?
  {
    match decision
    case Admit => Ran(Some(answer.value))
    case Unauthorized => Wrote(401)
    case Forbidden => Wrote(403)
  }

  // ----- The three adapters -----------------------------------------------------------------

  /** `fibermw.RequireRoles`. */
  method FiberRequireRoles(x: Exchange, answer: Outcome, enabled: bool, roles: seq<string>)
    modifies x
    ensures x.events == old(x.events) + [Observed(Guard(answer, enabled, roles), answer)]
    ensures x.attached == if Guard(answer, enabled, roles).Admit? then Some(answer.value) else old(x.attached)
  {
    if answer.Failure? {
      x.WriteError(401);
      return;
    }
    AnyRole(answer.value.roles, roles);
    if enabled && !HasAnyRole(answer.value.roles, roles) {
      x.WriteError(403);
      return;
    }
    x.Attach(answer.value);
    x.Next();
  }

  /** `fibermw.Optional`: never refuses, and attaches nothing for a caller it cannot verify. */
  method FiberOptional(x: Exchange, answer: Outcome)
    modifies x
    ensures x.attached == if answer.Success? then Some(answer.value) else old(x.attached)
    ensures x.events == old(x.events) + [Ran(x.attached)]
  {
    if answer.Success? {
      x.Attach(answer.value);
    }
    x.Next();
  }

  const SCHEME := "gatewayAuth"

  type Requirement = map<string, seq<string>>

  /** `requiredRoles`: the scopes of the first requirement that names the scheme. */
  function RequiredRoles(security: seq<Requirement>): (roles: Option<seq<string>>)
    ensures roles.None? <==> forall i | 0 <= i < |security| :: SCHEME !in security[i]
    ensures roles.Some? ==>
              exists i :: 0 <= i < |security| && SCHEME in security[i] && security[i][SCHEME] == roles.value
                          && forall j | 0 <= j < i :: SCHEME !in security[j]
  {
    if security == [] then None
    else if SCHEME in security[0] then Some(security[0][SCHEME])
    else RequiredRoles(security[1..])
  }

  /** `humamw.middleware`; an operation that does not name the scheme is anonymous. */
  method HumaMiddleware(x: Exchange, answer: Outcome, enabled: bool, security: seq<Requirement>)
    modifies x
    ensures x.events == old(x.events) +
      match RequiredRoles(security) {
        case None => [Ran(old(x.attached))]
        case Some(roles) => [Observed(OpenGuard(answer, enabled, roles), answer)]
      }
    ensures x.attached ==
      if RequiredRoles(security).Some? && OpenGuard(answer, enabled, RequiredRoles(security).value).Admit?
      then Some(answer.value) else old(x.attached)
  {
    var required := RequiredRoles(security);
    if required.None? {
      x.Next();
      return;
    }
    var roles := required.value;
    if answer.Failure? {
      x.WriteError(401);
      return;
    }
    AnyRole(answer.value.roles, roles);
    CommonRole(answer.value.roles, roles);
    if enabled && |roles| > 0 && !HasAnyRole(answer.value.roles, roles) {
      x.WriteError(403);
      return;
    }
    x.Attach(answer.value);
    x.Next();
  }

  /** `authenticateThen` in TypeScript; `middleware` passes no role list at all. */
  method ExpressAuthenticateThen(x: Exchange, answer: Outcome, enabled: bool, roles: Option<seq<string>>)
    modifies x
    ensures x.events == old(x.events) +
      [Observed(OpenGuard(answer, enabled, if roles.None? then [] else roles.value), answer)]
    ensures x.attached ==
      if OpenGuard(answer, enabled, if roles.None? then [] else roles.value).Admit?
      then Some(answer.value) else old(x.attached)
  {
    if answer.Failure? {
      x.WriteError(401);
      return;
    }
    if roles.Some? {
      AnyRole(answer.value.roles, roles.value);
      CommonRole(answer.value.roles, roles.value);
    }
    if roles.Some? && |roles.value| > 0 && enabled && !HasAnyRole(answer.value.roles, roles.value) {
      x.WriteError(403);
      return;
    }
    x.Attach(answer.value);
    x.Next();
  }

  /** What a client sees: 401 without an identity, 403 without a role, else what the handler does for the caller. */
  lemma EventsAre(answer: Outcome, enabled: bool, roles: seq<string>)
    ensures var seen := Observed(Guard(answer, enabled, roles), answer);
            && (seen == Wrote(401) <==> answer.Failure?)
            && (seen == Wrote(403) <==>
                answer.Success? && enabled && forall r | r in roles :: !HasRole(answer.value.roles, r))
            && (seen.Ran? ==> answer.Success? && seen == Ran(Some(answer.value)))
            && (seen.Wrote? ==> seen.status in {401, 403})
  {
    if answer.Success? {
      forall r {
        HasRoleIsMembership(answer.value.roles, r);
      }
    }
  }

  /**
    What a client of fiber, and of huma or express, sees is the same event except on an empty role
    list with checks enabled: there an authenticated caller is refused by fiber and runs the handler
    under the other two.
   */
  lemma GuardsAgree(answer: Outcome, enabled: bool, roles: seq<string>)
    ensures Observed(Guard(answer, enabled, roles), answer) == Observed(OpenGuard(answer, enabled, roles), answer) <==>
            roles != [] || !enabled || answer.Failure?
    ensures enabled && roles == [] && answer.Success? ==>
              && Observed(Guard(answer, enabled, roles), answer) == Wrote(403)
              && Observed(OpenGuard(answer, enabled, roles), answer) == Ran(Some(answer.value))
  {
    if answer.Success? {
      CommonRole(answer.value.roles, roles);
    }
  }

  /**
    From token to decision: rewriting the roles claim into any claim with the same set of strings
    leaves every adapter's decision unchanged.
   */
  lemma ClaimShapeNeverChangesTheDecision(
      mapper: Mapper, token: Token, raw: string, claim: Claim, enabled: bool, roles: seq<string>)
    requires var name := mapper.Defaulted().rolesClaim;
             name in token.fields && RoleSet(token.fields[name]) == RoleSet(claim)
    ensures var token' := token.(fields := token.fields[mapper.Defaulted().rolesClaim := claim]);
            var before, after := Success(IdentityOf(mapper, token, raw)), Success(IdentityOf(mapper, token', raw));
            && Guard(before, enabled, roles) == Guard(after, enabled, roles)
            && OpenGuard(before, enabled, roles) == OpenGuard(after, enabled, roles)
  {
    var claimed := token.fields[mapper.Defaulted().rolesClaim];
    OnlyTheSetDecides(claimed, claim, roles);
    AnyRole(StringsOf(claimed), roles);
    AnyRole(StringsOf(claim), roles);
    CommonRole(StringsOf(claimed), roles);
    CommonRole(StringsOf(claim), roles);
  }
}
