/** Verified tokens and the identity read off them (claims.go, gatewayauth.go). */
module Claims {
  import opened Text

  /** The shapes a decoded claim arrives in; `Opaque` is a number, an object, a boolean or null. */
  datatype Claim = Str(s: string) | Strs(values: seq<string>) | Items(items: seq<Claim>) | Opaque

  /** A token whose signature, issuer, audience and expiry were checked. */
  datatype Token = Token(subject: string, fields: map<string, Claim>)

  datatype Identity = Identity(
    subject: string, name: string, email: string, roles: seq<string>, token: string,
    claims: map<string, Claim>)

  datatype AuthError = NoCredential | InvalidToken

  datatype Mapper = Mapper(nameClaim: string, emailClaim: string, rolesClaim: string) {
    function Defaulted(): Mapper {
      Mapper(Default(nameClaim, "name"), Default(emailClaim, "email"), Default(rolesClaim, "groups"))
    }
  }

  function StringClaim(token: Token, name: string): string {
    if name in token.fields && token.fields[name].Str? then token.fields[name].s else ""
  }

  function StringItems(items: seq<Claim>): seq<string> {
    if items == [] then []
    else (if items[0].Str? then [items[0].s] else []) + StringItems(items[1..])
  }

  function StringsOf(raw: Claim): seq<string> {
    match raw
    case Str(s) => [s]
    case Strs(values) => values
    case Items(items) => StringItems(items)
    case Opaque => []
  }

  lemma {:induction false} StringItemsConcat(a: seq<Claim>, b: seq<Claim>)
    ensures StringItems(a + b) == StringItems(a) + StringItems(b)
  {
    if a == [] {
      assert a + b == b;
    } else {
      assert (a + b)[1..] == a[1..] + b;
      StringItemsConcat(a[1..], b);
    }
  }

  /** A claim reads as a text exactly when it is that string; anything else reads as nothing. */
  lemma ClaimReadsAs(token: Token, claim: string, text: string)
    requires text != ""
    ensures StringClaim(token, claim) == text <==> claim in token.fields && token.fields[claim] == Str(text)
  {
  }

  /** An array grants its strings in order, and an item that is not a string nothing. */
  lemma ItemsAreReadInOrder(a: seq<Claim>, x: Claim, b: seq<Claim>)
    ensures StringsOf(Items(a + [x] + b)) ==
            StringsOf(Items(a)) + (if x.Str? then [x.s] else []) + StringsOf(Items(b))
  {
    StringItemsConcat(a + [x], b);
    StringItemsConcat(a, [x]);
    assert [x][1..] == [];
  }

  /** `stringsFrom`: the array case is an append loop that skips what is not a string. */
  method StringsFrom(raw: Claim) returns (values: seq<string>)
    ensures values == StringsOf(raw)
  {
    match raw
    case Str(s) => values := [s];
    case Strs(ss) => values := ss;
    case Opaque => values := [];
    case Items(items) =>
      values := [];
      for i := 0 to |items|
        invariant values == StringItems(items[..i])
      {
        if items[i].Str? {
          values := values + [items[i].s];
        }
        assert items[..i + 1] == items[..i] + [items[i]];
        StringItemsConcat(items[..i], [items[i]]);
      }
      assert items[..|items|] == items;
  }

  function ClaimValues(token: Token, name: string): seq<string> {
    if name in token.fields then StringsOf(token.fields[name]) else []
  }

  /** `ClaimsMapper.identity`. */
  function IdentityOf(mapper: Mapper, token: Token, raw: string): Identity {
    var m := mapper.Defaulted();
    Identity(token.subject, StringClaim(token, m.nameClaim), StringClaim(token, m.emailClaim),
             ClaimValues(token, m.rolesClaim), raw, token.fields)
  }

  // ----- Roles -----------------------------------------------------------------------------

  predicate HasRole(held: seq<string>, role: string) {
    held != [] && (held[0] == role || HasRole(held[1..], role))
  }

  predicate HasAnyRole(held: seq<string>, roles: seq<string>) {
    roles != [] && (HasRole(held, roles[0]) || HasAnyRole(held, roles[1..]))
  }

  /** The roles a claim grants, with no order, no duplicates and nothing that is not a string. */
  ghost function RoleSet(raw: Claim): set<string> {
    match raw
    case Str(s) => {s}
    case Strs(values) => set v | v in values
    case Items(items) => set i | 0 <= i < |items| && items[i].Str? :: items[i].s
    case Opaque => {}
  }

  lemma {:induction false} HasRoleIsMembership(held: seq<string>, role: string)
    ensures HasRole(held, role) <==> role in held
  {
    if held != [] {
      HasRoleIsMembership(held[1..], role);
    }
  }

  lemma {:induction false} AnyRole(held: seq<string>, roles: seq<string>)
    ensures HasAnyRole(held, roles) <==> exists r :: r in roles && r in held
  {
    if roles != [] {
      HasRoleIsMembership(held, roles[0]);
      AnyRole(held, roles[1..]);
      assert forall r :: r in roles <==> r == roles[0] || r in roles[1..];
    }
  }

  lemma {:induction false} StringItemsAreTheStrings(items: seq<Claim>, role: string)
    ensures role in StringItems(items) <==> exists i :: 0 <= i < |items| && items[i] == Str(role)
  {
    if items != [] {
      StringItemsAreTheStrings(items[1..], role);
      if i :| 0 <= i < |items[1..]| && items[1..][i] == Str(role) {
        assert items[i + 1] == Str(role);
      }
    }
  }

  lemma StringsAreTheRoleSet(raw: Claim, role: string)
    ensures role in StringsOf(raw) <==> role in RoleSet(raw)
  {
    if raw.Items? {
      StringItemsAreTheStrings(raw.items, role);
    }
  }

  /** A caller is admitted to any-of `roles` exactly when the claim's set meets them. */
  lemma RoleDecision(raw: Claim, roles: seq<string>)
    ensures HasAnyRole(StringsOf(raw), roles) <==> exists r :: r in roles && r in RoleSet(raw)
  {
    AnyRole(StringsOf(raw), roles);
    forall r {
      StringsAreTheRoleSet(raw, r);
    }
  }

  /**
    Claims with the same set of strings decide alike: a scalar like its one-element array, in any
    order, with any duplicates, among any items that are not strings.
   */
  lemma OnlyTheSetDecides(raw: Claim, raw': Claim, roles: seq<string>)
    requires RoleSet(raw) == RoleSet(raw')
    ensures HasAnyRole(StringsOf(raw), roles) == HasAnyRole(StringsOf(raw'), roles)
  {
    RoleDecision(raw, roles);
    RoleDecision(raw', roles);
  }
}
