/**
  Token sources (source.go, ts/src/source.ts): how a raw credential is pulled out of request
  headers, and how it is rendered again for a downstream call.
 */
module Sources {
  import opened Wrappers
  import opened Text

  /** A request's headers under canonical names; an absent header reads as "". */
  type Headers = map<string, string>

  function Get(h: Headers, name: string): string {
    if name in h then h[name] else ""
  }

  const ACCESS_TOKEN := "X-Auth-Request-Access-Token"
  const USER := "X-Auth-Request-User"
  const EMAIL := "X-Auth-Request-Email"
  const GROUPS := "X-Auth-Request-Groups"
  const AUTHORIZATION := "Authorization"

  datatype TokenSource = Header(name: string, scheme: string) | Chain(sources: seq<TokenSource>)

  const DEFAULT_SOURCE := Chain([Header(ACCESS_TOKEN, ""), Header(AUTHORIZATION, "Bearer")])

  predicate HasScheme(value: string, scheme: string) {
    |value| >= |scheme| + 1 && EqualFold(value[..|scheme| + 1], scheme + " ")
  }

  /** `HeaderSource.Token` in Go, on the header's value. */
  function HeaderToken(header: string, scheme: string): Option<string> {
    var value := Trim(header);
    if value == "" then None
    else if scheme == "" then Some(value)
    else if !HasScheme(value, scheme) then None
    else
      var token := Trim(value[|scheme| + 1..]);
      if token != "" then Some(token) else None
  }

  /** `headerSource` in TypeScript, which lower-cases both sides instead of folding them. */
  function HeaderTokenTs(header: string, scheme: string): Option<string> {
    var value := Trim(header);
    if value == "" then None
    else if scheme == "" then Some(value)
    else
      var prefix := scheme + " ";
      if |value| < |prefix| || ToLower(value[..|prefix|]) != ToLower(prefix) then None
      else
        var token := Trim(value[|prefix|..]);
        if token == "" then None else Some(token)
  }

  function Extracted(source: TokenSource, h: Headers): Option<string>
    decreases source
  {
    match source
    case Header(name, scheme) => HeaderToken(Get(h, name), scheme)
    case Chain(sources) => FirstToken(sources, h)
  }

  /** `ChainSource.Token`: the first token any source yields. */
  function FirstToken(sources: seq<TokenSource>, h: Headers): Option<string>
    decreases sources
  {
    if sources == [] then None
    else
      var first := Extracted(sources[0], h);
      if first.Some? then first else FirstToken(sources[1..], h)
  }

  // ----- What an extracted token looks like -----------------------------------------------

  predicate SuffixOf(t: string, s: string) {
    |t| <= |s| && s[|s| - |t|..] == t
  }

  /** A matched scheme ends in a space, so a trimmed value must have text after it. */
  lemma SchemeLeavesText(value: string, scheme: string)
    requires Trimmed(value) && scheme != "" && HasScheme(value, scheme)
    ensures |value| > |scheme| + 1
    ensures Trim(value[|scheme| + 1..]) != ""
    ensures SuffixOf(Trim(value[|scheme| + 1..]), value)
  {
    var n := |scheme| + 1;
    EqualFoldIsLowerEqual(value[..n], scheme + " ");
    assert ToLower(value[..n])[n - 1] == ToLower(scheme + " ")[n - 1] == ' ';
    assert IsSpace(value[n - 1]);
    var rest := value[n..];
    var l, r := TrimPads(rest);
    assert r == "";
    assert rest == l + Trim(rest);
    assert Trim(rest) != "";
  }

  /**
    An extracted token is non-empty, trimmed and a suffix of the trimmed header; and once the
    scheme has matched, the last emptiness test can no longer reject.
   */
  lemma TokenShape(header: string, scheme: string)
    ensures var t := HeaderToken(header, scheme);
            t.Some? ==> t.value != "" && Trimmed(t.value) && SuffixOf(t.value, Trim(header))
    ensures HeaderToken(header, scheme).None? <==>
            Trim(header) == "" || (scheme != "" && !HasScheme(Trim(header), scheme))
  {
    TrimIsTrimmed(header);
    if Trim(header) != "" && scheme != "" && HasScheme(Trim(header), scheme) {
      SchemeLeavesText(Trim(header), scheme);
      TrimIsTrimmed(Trim(header)[|scheme| + 1..]);
    }
  }

  /**
    A credential is recovered whole: any token, after the scheme in any case, a space and any more
    white space, with white space around it all.
   */
  lemma TokenIsRecovered(l: string, s: string, gap: string, t: string, r: string, scheme: string)
    requires Blank(l) && Blank(gap) && Blank(r) && t != "" && Trimmed(t)
    requires scheme != "" && Trimmed(scheme) && EqualFold(s, scheme)
    ensures HeaderToken(l + (s + " " + gap + t) + r, scheme) == Some(t)
    ensures HeaderToken(l + t + r, "") == Some(t)
  {
    var value := s + " " + gap + t;
    assert value == s + " " + (gap + t) && gap + t == gap + t + "";
    EqualFoldIsLowerEqual(s, scheme);
    SameEnds(s, scheme);
    TrimUnpads(l, value, r);
    TrimUnpads(l, t, r);
    TrimUnpads(gap, t, "");
    SchemeInFront(s, gap + t, scheme);
  }

  lemma SchemeInFront(s: string, rest: string, scheme: string)
    requires EqualFold(s, scheme)
    ensures var value := s + " " + rest;
            HasScheme(value, scheme) && value[|scheme| + 1..] == rest
  {
    var value := s + " " + rest;
    EqualFoldIsLowerEqual(s, scheme);
    assert |ToLower(s)| == |ToLower(scheme)|;
    assert value[..|scheme| + 1] == s + " ";
    assert ToLower(s + " ") == ToLower(s) + " ";
    SchemeByLowerCase(value, scheme);
  }

  /** Folding case makes no white space. */
  lemma SameEnds(s: string, t: string)
    requires t != "" && Trimmed(t) && ToLower(s) == ToLower(t)
    ensures s != "" && Trimmed(s)
  {
    assert |s| == |ToLower(s)| == |ToLower(t)| == |t|;
    assert ToLower(s)[0] == ToLower(t)[0] && ToLower(s)[|s| - 1] == ToLower(t)[|t| - 1];
  }

  lemma SchemeByLowerCase(v: string, scheme: string)
    requires |v| > |scheme|
    ensures HasScheme(v, scheme) <==> ToLower(v[..|scheme| + 1]) == ToLower(scheme) + " "
  {
    EqualFoldIsLowerEqual(v[..|scheme| + 1], scheme + " ");
    assert ToLower(scheme + " ") == ToLower(scheme) + " ";
  }

  lemma SchemeMatchIgnoresCase(v: string, v': string, scheme: string, scheme': string)
    requires EqualFold(scheme, scheme') && |v| == |v'| > |scheme|
    requires EqualFold(v[..|scheme| + 1], v'[..|scheme| + 1])
    ensures |scheme| == |scheme'|
    ensures HasScheme(v, scheme) <==> HasScheme(v', scheme')
  {
    EqualFoldIsLowerEqual(scheme, scheme');
    assert |ToLower(scheme)| == |ToLower(scheme')|;
    EqualFoldIsLowerEqual(v[..|scheme| + 1], v'[..|scheme| + 1]);
    SchemeByLowerCase(v, scheme);
    SchemeByLowerCase(v', scheme');
  }

  /** The letter case of the scheme, configured or received, never changes the result. */
  lemma SchemeCaseIrrelevant(header: string, header': string, scheme: string, scheme': string)
    requires scheme != "" && EqualFold(scheme, scheme')
    requires var v, v', n := Trim(header), Trim(header'), |scheme| + 1;
             && |v| == |v'| >= n
             && EqualFold(v[..n], v'[..n])
             && v[n..] == v'[n..]
    ensures HeaderToken(header, scheme) == HeaderToken(header', scheme')
  {
    SchemeMatchIgnoresCase(Trim(header), Trim(header'), scheme, scheme');
  }

  /** The Go and the TypeScript reader extract the same token from every header. */
  lemma GoAndTypeScriptAgree(header: string, scheme: string)
    ensures HeaderToken(header, scheme) == HeaderTokenTs(header, scheme)
  {
    var value := Trim(header);
    if |value| >= |scheme| + 1 {
      EqualFoldIsLowerEqual(value[..|scheme| + 1], scheme + " ");
    }
  }

  // ----- Nested chains --------------------------------------------------------------------

  /** The header sources of a nested chain, in the order they are tried. */
  function Leaves(source: TokenSource): seq<TokenSource>
    decreases source
  {
    match source
    case Header(_, _) => [source]
    case Chain(sources) => LeavesOf(sources)
  }

  function LeavesOf(sources: seq<TokenSource>): seq<TokenSource>
    decreases sources
  {
    if sources == [] then [] else Leaves(sources[0]) + LeavesOf(sources[1..])
  }

  lemma {:induction false} FirstTokenConcat(a: seq<TokenSource>, b: seq<TokenSource>, h: Headers)
    ensures FirstToken(a + b, h) ==
            if FirstToken(a, h).Some? then FirstToken(a, h) else FirstToken(b, h)
  {
    if a == [] {
      assert a + b == b;
    } else {
      assert (a + b)[1..] == a[1..] + b;
      FirstTokenConcat(a[1..], b, h);
    }
  }

  /** However chains are nested, the flat list of headers decides. */
  lemma {:induction false} NestedChainIsFlat(source: TokenSource, h: Headers)
    ensures Extracted(source, h) == FirstToken(Leaves(source), h)
    decreases source
  {
    match source
    case Header(_, _) =>
    case Chain(sources) => NestedChainsAreFlat(sources, h);
  }

  lemma {:induction false} NestedChainsAreFlat(sources: seq<TokenSource>, h: Headers)
    ensures FirstToken(sources, h) == FirstToken(LeavesOf(sources), h)
    decreases sources
  {
    if sources != [] {
      NestedChainIsFlat(sources[0], h);
      NestedChainsAreFlat(sources[1..], h);
      FirstTokenConcat(Leaves(sources[0]), LeavesOf(sources[1..]), h);
    }
  }

  // ----- Forwarding -----------------------------------------------------------------------

  /** `ForwardAuthorization`: the caller's credential as an Authorization value. */
  function ForwardAuthorization(h: Headers): string {
    var a := Trim(Get(h, AUTHORIZATION));
    var t := Trim(Get(h, ACCESS_TOKEN));
    if a != "" then a else if t != "" then "Bearer " + t else ""
  }

  /** The request a console makes on behalf of the caller. */
  function Downstream(h: Headers): Headers {
    map[AUTHORIZATION := ForwardAuthorization(h)]
  }

  /** The default source: the token the gateway forwarded, else a bearer token. */
  lemma DefaultTokenCases(h: Headers)
    ensures Extracted(DEFAULT_SOURCE, h) ==
            var t := Trim(Get(h, ACCESS_TOKEN));
            if t != "" then Some(t) else HeaderToken(Get(h, AUTHORIZATION), "Bearer")
  {
    var sources := DEFAULT_SOURCE.sources;
    assert sources[1..][1..] == [];
    assert FirstToken(sources[1..], h) == HeaderToken(Get(h, AUTHORIZATION), "Bearer");
    assert Extracted(sources[0], h) == HeaderToken(Get(h, ACCESS_TOKEN), "");
  }

  lemma BearerRoundTrip(t: string)
    requires t != "" && Trimmed(t)
    ensures Trim("Bearer " + t) == "Bearer " + t
    ensures HeaderToken("Bearer " + t, "Bearer") == Some(t)
  {
    var v := "Bearer " + t;
    TrimIsTrimmed(v);
    TrimIsTrimmed(t);
    assert v[..7] == "Bearer" + " " && v[7..] == t;
    EqualFoldIsLowerEqual(v[..7], "Bearer" + " ");
  }

  /** What the downstream service extracts: the bearer token of a non-blank Authorization, else the access token. */
  lemma DownstreamToken(h: Headers)
    ensures Extracted(DEFAULT_SOURCE, Downstream(h)) ==
            if Trim(Get(h, AUTHORIZATION)) != "" then HeaderToken(Get(h, AUTHORIZATION), "Bearer")
            else if Trim(Get(h, ACCESS_TOKEN)) != "" then Some(Trim(Get(h, ACCESS_TOKEN)))
            else None
  {
    DefaultTokenCases(Downstream(h));
    assert Get(Downstream(h), ACCESS_TOKEN) == "";
    TrimIsTrimmed(Get(h, AUTHORIZATION));
    TrimIsTrimmed(Get(h, ACCESS_TOKEN));
    TrimIsTrimmed(Trim(Get(h, AUTHORIZATION)));
    if Trim(Get(h, AUTHORIZATION)) == "" && Trim(Get(h, ACCESS_TOKEN)) != "" {
      BearerRoundTrip(Trim(Get(h, ACCESS_TOKEN)));
    }
  }

  /**
    Forwarding preserves the caller exactly when the two headers do not disagree: one of them
    is blank, or Authorization bears the very token the gateway put in the other. A request
    carrying two different credentials is forwarded under the Authorization one, although this
    service itself reads the gateway's.
   */
  lemma ForwardingPreservesToken(h: Headers)
    ensures Extracted(DEFAULT_SOURCE, Downstream(h)) == Extracted(DEFAULT_SOURCE, h) <==>
            || Trim(Get(h, AUTHORIZATION)) == ""
            || Trim(Get(h, ACCESS_TOKEN)) == ""
            || HeaderToken(Get(h, AUTHORIZATION), "Bearer") == Some(Trim(Get(h, ACCESS_TOKEN)))
  {
    DownstreamToken(h);
    DefaultTokenCases(h);
    TokenShape(Get(h, AUTHORIZATION), "Bearer");
  }

  /** The two-credential request above: the caller changes on the way downstream. */
  lemma ForwardingCanChangeTheCaller()
    ensures var h := map[ACCESS_TOKEN := "a", AUTHORIZATION := "Bearer b"];
            && Extracted(DEFAULT_SOURCE, h) == Some("a")
            && Extracted(DEFAULT_SOURCE, Downstream(h)) == Some("b")
  {
    var h := map[ACCESS_TOKEN := "a", AUTHORIZATION := "Bearer b"];
    BearerRoundTrip("b");
    TrimIsTrimmed("a");
    assert "Bearer " + "b" == "Bearer b";
    DefaultTokenCases(h);
    DownstreamToken(h);
  }

  /** A console behind a console forwards the same header value. */
  lemma ForwardingIsIdempotent(h: Headers)
    ensures ForwardAuthorization(Downstream(h)) == ForwardAuthorization(h)
  {
    TrimIsTrimmed(Get(h, AUTHORIZATION));
    TrimIsTrimmed(Trim(Get(h, AUTHORIZATION)));
    TrimIsTrimmed(Get(h, ACCESS_TOKEN));
    if Trim(Get(h, AUTHORIZATION)) == "" && Trim(Get(h, ACCESS_TOKEN)) != "" {
      BearerRoundTrip(Trim(Get(h, ACCESS_TOKEN)));
    }
  }
}
