/** The verifying authenticator and the header-trust one (verify.go). */
module Verifier {
  import opened Wrappers
  import opened Text
  import opened Sources
  import opened Groups
  import opened Cookies
  import opened Claims
  import opened KeySets
  import opened Userinfo

  /**
    `verdict` is signature, issuer, audience and expiry checking: given the keys, the raw token,
    the issuer, the audience to require if any, and the time, it yields the token's claims or
    rejects.
   */
  datatype Config = Config(
    verdict: (Jwks, string, string, Option<string>, int) -> Option<Token>,
    source: TokenSource, mapper: Mapper, issuer: string, audience: string,
    userinfo: bool, displayCookie: string)

  /** `parse`: an empty audience accepts any token of the issuer. */
  function Parse(cfg: Config, keys: Jwks, raw: string, now: int): Option<Token> {
    cfg.verdict(keys, raw, cfg.issuer, if cfg.audience == "" then None else Some(cfg.audience), now)
  }

  predicate Nameless(identity: Identity) {
    identity.name == "" && identity.email == ""
  }

  /** The display cookie's raw token, "" when the fallback is off or the cookie is absent. */
  function CookieRaw(cfg: Config, h: Headers): string {
    if cfg.displayCookie == "" then "" else CookieValue(Get(h, "Cookie"), cfg.displayCookie)
  }

  /** The cookie's verdict applied to an identity: only a verified token of the same subject shows. */
  function WithCookie(cfg: Config, keys: Jwks, raw: string, now: int, identity: Identity): Identity {
    var token := Parse(cfg, keys, raw, now);
    if token.Some? && token.value.subject == identity.subject
    then Showing(identity, StringClaim(token.value, "name"), StringClaim(token.value, "email"))
    else identity
  }

  /** A verifier with no fallbacks, deciding with one key set at one time. */
  function Bare(cfg: Config, h: Headers, keys: Jwks, now: int): Result<Identity, AuthError> {
    match Extracted(cfg.source, h)
    case None => Failure(NoCredential)
    case Some(raw) =>
      match Parse(cfg, keys, raw, now)
      case None => Failure(InvalidToken)
      case Some(token) => Success(IdentityOf(cfg.mapper, token, raw))
  }

  /** The clock readings and the provider's answer one request meets. */
  datatype Weather = Weather(
    verifyAt: int, cookieAt: int, decideAt: int, outcome: FetchOutcome, storeAt: int)

  /** One `Authenticate` that nothing interleaves with: its answer and the cache it leaves. */
  function Alone(cfg: Config, h: Headers, keys: Jwks, cache: Cache, w: Weather)
    : (Result<Identity, AuthError>, Cache)
  {
    var bare := Bare(cfg, h, keys, w.verifyAt);
    if bare.Failure? then (bare, cache)
    else
      var cookie := CookieRaw(cfg, h);
      var shown :=
        if Nameless(bare.value) && cookie != "" then WithCookie(cfg, keys, cookie, w.cookieAt, bare.value)
        else bare.value;
      if cfg.userinfo && Nameless(shown) then
        var (filled, cache') := Filled(cache, shown, w.decideAt, w.outcome, w.storeAt);
        (Success(filled), cache')
      else (Success(shown), cache)
  }

  class TokenVerifier {
    const cfg: Config
    const keys: KeySet
    const fetcher: UserinfoFetcher?

    constructor (cfg: Config, keys: KeySet, fetcher: UserinfoFetcher?)
      requires cfg.userinfo <==> fetcher != null
      ensures this.cfg == cfg && this.keys == keys && this.fetcher == fetcher
      ensures Valid()
    {
      this.cfg, this.keys, this.fetcher := cfg, keys, fetcher;
    }

    predicate Valid() {
      cfg.userinfo <==> fetcher != null
    }

    function Footprint(): set<object> {
      if fetcher == null then {} else {fetcher}
    }

    function CacheNow(): Cache
      reads Footprint()
    {
      if fetcher == null then map[] else fetcher.cache
    }

    method ParseToken(raw: string, now: int) returns (token: Option<Token>)
      ensures token == Parse(cfg, keys.keys, raw, now)
    {
      var current := keys.Set();
      var audience: Option<string> := None;
      if cfg.audience != "" {
        audience := Some(cfg.audience);
      }
      token := cfg.verdict(current, raw, cfg.issuer, audience, now);
    }

    method FillFromDisplayCookie(h: Headers, identity: Identity, now: int) returns (shown: Identity)
      ensures shown ==
              if CookieRaw(cfg, h) == "" then identity
              else WithCookie(cfg, keys.keys, CookieRaw(cfg, h), now, identity)
    {
      shown := identity;
      if cfg.displayCookie == "" {
        return;
      }
      var raw := FindCookie(Get(h, "Cookie"), cfg.displayCookie);
      if raw == "" {
        return;
      }
      var token := ParseToken(raw, now);
      if token.None? || token.value.subject != identity.subject {
        return;
      }
      shown := shown.(name := StringClaim(token.value, "name"));
      shown := shown.(email := StringClaim(token.value, "email"));
    }

    /** The request as the source runs it; it writes nothing but the userinfo cache. */
    method Authenticate(h: Headers, w: Weather) returns (r: Result<Identity, AuthError>)
      requires Valid()
      modifies Footprint()
      ensures (r, CacheNow()) == Alone(cfg, h, keys.keys, old(CacheNow()), w)
    {
      var raw := Extracted(cfg.source, h);
      if raw.None? {
        return Failure(NoCredential);
      }
      var token := ParseToken(raw.value, w.verifyAt);
      if token.None? {
        return Failure(InvalidToken);
      }
      var identity := IdentityOf(cfg.mapper, token.value, raw.value);
      if identity.name == "" && identity.email == "" {
        identity := FillFromDisplayCookie(h, identity, w.cookieAt);
      }
      if fetcher != null && identity.name == "" && identity.email == "" {
        identity := fetcher.Fill(identity, w.decideAt, w.outcome, w.storeAt);
      }
      return Success(identity);
    }
  }

  // ----- Header trust ----------------------------------------------------------------------

  /** `headerTrust.Authenticate`: an identity from the gateway's headers, no token checked. */
  function TrustHeaders(h: Headers): Result<Identity, AuthError> {
    var subject, email := Get(h, USER), Get(h, EMAIL);
    if subject == "" && email == "" then Failure(NoCredential)
    else Success(Identity(
      subject, if subject == "" then email else subject, email,
      SplitAndTrim(Get(h, GROUPS), ','), Get(h, ACCESS_TOKEN), map[]))
  }

  /** A request that bypassed the proxy carries neither user nor email, and exactly such a request is refused. */
  lemma TrustRefusesExactlyWhen(h: Headers)
    ensures TrustHeaders(h) == Failure(NoCredential) <==> Get(h, USER) == "" && Get(h, EMAIL) == ""
    ensures TrustHeaders(h).Failure? ==> TrustHeaders(h) == Failure(NoCredential)
  {
  }

  /** Otherwise the identity is the headers', whatever they say, and nameless for nobody. */
  lemma TrustedIdentityIsTheHeaders(h: Headers)
    requires TrustHeaders(h).Success?
    ensures var id := TrustHeaders(h).value;
            && id.subject == Get(h, USER) && id.email == Get(h, EMAIL) && id.token == Get(h, ACCESS_TOKEN)
            && id.claims == map[] && id.roles == SplitAndTrim(Get(h, GROUPS), ',')
            && id.name == (if Get(h, USER) != "" then Get(h, USER) else Get(h, EMAIL)) && id.name != ""
  {
  }

  /**
    The TypeScript authenticator reads the joined lines of a repeated header. Sending the groups on
    several lines gives the same identity as sending the list the
    lines hold together, and every role it carries is a usable one.
   */
  lemma TrustedRolesOfDuplicateHeaders(h: Headers, lines: seq<string>)
    requires Get(h, USER) != "" || Get(h, EMAIL) != ""
    ensures var r := TrustHeaders(h[GROUPS := NodeValue(lines)]);
            && r.Success?
            && r.value.roles == Concat(SplitEach(lines))
            && r == TrustHeaders(h[GROUPS := Join(r.value.roles, ",")])
            && forall role | role in r.value.roles :: Clean(role, ',')
  {
    var h' := h[GROUPS := NodeValue(lines)];
    assert Get(h', USER) == Get(h, USER) && Get(h', EMAIL) == Get(h, EMAIL);
    DuplicateHeadersConcatenate(lines);
    SplitAndTrimIsClean(NodeValue(lines), ',');
    SplitAndTrimIsIdempotent(NodeValue(lines), ',');
    assert [','] == ",";
  }

  /**
    The Go one reads the first line only. Both admit the request, Go never grants a role that
    TypeScript does not, and they return the same identity exactly when no later line holds a group.
   */
  lemma TrustedCallersAgreeExactlyWhen(h: Headers, lines: seq<string>)
    requires Get(h, USER) != "" || Get(h, EMAIL) != ""
    ensures var go, ts := TrustHeaders(h[GROUPS := FirstLine(lines)]), TrustHeaders(h[GROUPS := NodeValue(lines)]);
            && go.Success? && ts.Success?
            && go.value.roles == (if lines == [] then [] else SplitAndTrim(lines[0], ','))
            && go.value.roles <= ts.value.roles
            && (go == ts <==> forall i | 0 < i < |lines| :: Vacant(lines[i], ','))
  {
    FirstLineIsEnoughExactlyWhen(lines);
    NoGroupsExactlyWhen("", ',');
    var go, ts := h[GROUPS := FirstLine(lines)], h[GROUPS := NodeValue(lines)];
    assert Get(go, USER) == Get(ts, USER) == Get(h, USER) && Get(go, EMAIL) == Get(ts, EMAIL) == Get(h, EMAIL);
  }

  /** Two lines with a group each: Go grants only the first. */
  lemma GoDropsTheSecondLine(h: Headers, a: string, b: string)
    requires Get(h, USER) != "" && Clean(a, ',') && Clean(b, ',')
    ensures TrustHeaders(h[GROUPS := FirstLine([a, b])]).value.roles == [a]
    ensures TrustHeaders(h[GROUPS := NodeValue([a, b])]).value.roles == [a, b]
  {
    CleanGroupAlone(a);
    TwoLines(a, b);
    var go, ts := h[GROUPS := FirstLine([a, b])], h[GROUPS := NodeValue([a, b])];
    assert Get(go, USER) == Get(ts, USER) == Get(h, USER);
  }
}
