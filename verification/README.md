# gateway-auth: model and proofs

A Dafny model of three parts of gateway-auth, and proofs about them.

- **The verified-identity runtime** (`verify.go`, `keyset.go`, `userinfo.go`). `KeySets.dfy`,
  `Userinfo.dfy` and `Verifier.dfy` hold the classes as the source writes them, each method proved
  against a function. `Runtime.dfy` runs any number of `Authenticate` calls at once as an
  interleaving state machine built from the same functions: one step is one critical section, one
  clock reading or the end of one fetch. `Guarantees.dfy` and `FetchBound.dfy` state what holds in
  every run, and `Outcomes.dfy` what each request gets for the verdicts, cookies and answers it meets,
  in those terms alone. `Scenarios.dfy` builds runs: with it `FullWindows.dfy` shows that the fetch
  bound is reached, and `FailedFetches.dfy` which part of it cannot be dropped.
- **The exposure template** (`_exposure.tpl`, `_helpers.tpl`). `Values.dfy` and `Exposure.dfy` are a
  partial function from values to typed manifests; `Install.dfy` says how the install's documents are
  wired, `Protection.dfy`, `Closure.dfy`, `Names.dfy`, `Scopes.dfy` and `Routing.dfy` state what every
  render has, and `Counterexamples.dfy` gives values that render for each property that can fail.
- **The credential codecs and guards** (`source.go`, `cookieValue`, `signout.go`, `claims.go`, the
  framework adapters and their TypeScript mirrors). `Text.dfy` has the string routines; `Sources.dfy`,
  `Groups.dfy`, `Cookies.dfy`, `SignOut.dfy`, `Claims.dfy` and `Adapters.dfy` the rest.

The environment is arbitrary: token verification is a function parameter (`Config.verdict`) over
keys, raw token, issuer, audience and time; a fetch ends in failure or in any value; time passes by
any amount between two steps. Strings are ASCII: white space and case folding are the ASCII ones, on
which Go and JavaScript agree.

## Where the code and its description differ

Each of these is a lemma that says exactly when the expected property holds.

- With a shared session store and a generated cookie Secret, the `ExternalSecret` refers to a
  `Password` generator that is not rendered, because the generator sits inside the session-store
  conditional (`Closure.RenderIsClosed`, `Counterexamples.DanglingGenerator`). The other way round, a
  supplied cookie Secret beside an own store leaves a generator nothing refers to, although the
  comment says it is skipped (`Closure.UnusedGenerator`, `Counterexamples.GeneratorNobodyUses`).
- The refresh guard looks for the letters `offline_access`, not for the scope: it passes a refresh
  that cannot work when every occurrence is part of a longer word (`Scopes.GuardPassesInVain`,
  `Counterexamples.RefreshThatCannotWork`).
- Applying the manifests in order keeps one object for each kind and name, the last, and nothing in
  the template keeps entries' names apart. The proxy's route ends up behind a policy if a protected
  entry that is the last of its name is named `proxy` or attaches to it
  (`Protection.ProxyIsGuardedExactlyWhen`, `Counterexamples.ProxyBehindItself`). Two protected entries
  of one name render two SecurityPolicies of one name: if they are bound to different routes, one
  route loses its policy, and if to one route, the second entry's posture replaces the first's, groups
  rule included (`Protection.ProtectionIsExact`, `Counterexamples.LostPolicy`,
  `Counterexamples.LostAllowList`). An owned entry named `proxy` replaces the proxy's own HTTPRoute
  (`Routing.ProxyPathsReachTheProxy`, `Counterexamples.ReplacedProxyRoute`).
- The comment on `gateway-auth.name` promises that every derived name is legal; names derived from an
  entry's own name are not checked (`Names.EntryNameIsLegalExactlyWhen`,
  `Counterexamples.IllegalEntryName`).
- In header-trust mode, groups sent on several header lines are all read in TypeScript, whose node
  adapter joins the lines; in Go `Get` returns the first line, and the others are dropped
  (`Verifier.TrustedCallersAgreeExactlyWhen`, `Verifier.GoDropsTheSecondLine`).
- A request that carries two different credentials is forwarded under the one this service itself
  does not read (`Sources.ForwardingPreservesToken`).
- Failed userinfo requests are not cached, so only successful ones are bounded
  (`FailedFetches.FailuresAreNotCached`).
- `SignOutURL("")` uses the default prefix in Go and the root in TypeScript
  (`SignOut.GoAndTypeScriptAgree`).
- On an empty role list fiber refuses everyone, huma and express nobody who is authenticated
  (`Adapters.GuardsAgree`).

## Model

| member | source | states |
|---|---|---|
| `Runtime.Reachable` | verify.go:29-92 | the invariant of every reachable state: the key set is non-empty and the newest of its history, every cache entry is an answer for its own subject, and every call holds only what it verified |
| `Runtime.NextKeepsInv` | userinfo.go:48-104 | each atomic step of each goroutine keeps that invariant |
| `Runtime.CallStays` | verify.go:29-61 | steps of other goroutines cannot invalidate what a call holds |
| `Guarantees.AnswersRefineBareVerifier` | verify.go:29-61 | in every run a finished call gives the success or error, subject, roles, token and claims that a verifier without fallbacks gives with a key set current since the call came in, and the same name and email when the token has either |
| `Guarantees.AdmissionsAreTheBareVerifiers` | adapters/fibermw/fibermw.go:58-73 | in every run, for every role list, both guard postures decide on a finished call's answer as on that verifier's answer: fallbacks, cache and other calls change no admission |
| `Guarantees.BareIsWithoutFallbacks` | verify.go:52-58 | that reference verifier is this one with both fallbacks off, and it leaves the cache alone |
| `Guarantees.DisplayPairHasOneSource` | verify.go:45-92 | a returned (name, email) pair comes whole from the access token, from a verified cookie token of the same subject, or from a userinfo answer for that subject; everything else is the verified access token's |
| `Guarantees.CookieKeysAreNoOlder` | verify.go:69-92 | a call checks its cookie with keys no older in the history than those that verified its access token |
| `Guarantees.CacheHoldsOwnAnswers` | userinfo.go:93-103 | every entry of every reachable cache is an answer whose sub is its key, as section 5.3.2 of OpenID Connect Core 1.0 requires, and is not from the future |
| `Guarantees.EntriesOnlyGetNewer` | userinfo.go:101-103 | along any run entries are never lost and fetchedAt never decreases |
| `Guarantees.HitsAreFresh` | userinfo.go:49-57 | a call served from the cache uses an entry of its subject of age at least 0 and strictly below the TTL |
| `Guarantees.KeySetIsLastFetched` | keyset.go:91-132 | in every reachable state the key set is non-empty and equals the last usable one of the finished fetches; between a fetch and its swap, the last usable one before it |
| `Guarantees.FailedRefreshesChangeNoVerdict` | keyset.go:73-89 | any stretch of failed refreshes leaves the verdict on every token at every time unchanged |
| `Guarantees.AuthenticateIsARun` | verify.go:29-61 | the sequential method, for all ordered clock readings and every fetch outcome, is a run of the state machine with the same answer and cache |
| `Outcomes.RefusedExactlyWhen` | verify.go:29-43 | a request is refused for want of a credential, or because the verdict, asked for the issuer and any configured audience, goes against it, and for nothing else |
| `Outcomes.CallerIsTheTokens` | claims.go:37-49 | whoever is let in has the subject, claims and roles of the verified token, and carries that token |
| `Outcomes.ProvenPairsComeFirst` | verify.go:45-54 | the token's own name and email are shown if it has either, else those of a verified cookie token of the same subject, and the cache is left alone |
| `Outcomes.UserinfoComesLast` | userinfo.go:48-104 | with neither, an entry younger than an hour is shown, else an answer for this very subject is shown and stored, else nothing is |
| `Outcomes.AdmittedByAVerdict` | verify.go:106-128 | in every run whoever is let in presented a token that passed the verdict for the configured issuer and audience under a key set current since the call came in |
| `Outcomes.RefusedByAVerdict` | verify.go:29-43 | in every run a refusal for an invalid token follows a verdict against it, and one for no credential the absence of one |
| `Outcomes.OtherAudiencesAreRefused` | verify.go:114-120 | a token that the verdict rejects whenever the configured audience is asked for lets nobody in |
| `Outcomes.KeysAreReadWhenNeeded` | verify.go:107-109 | each token, the cookie's included, is checked with the key set current when its check begins |
| `Outcomes.DisplayCookieDecides` | verify.go:69-92 | in every run, for a token without name and email and a cookie: if the cookie's token verifies for the same subject and shows something, the call returns exactly that and makes no userinfo request; otherwise the cookie shows nothing |
| `Outcomes.AnswersAreShownAndStored` | userinfo.go:93-103 | in every run an answer for the call's subject is what it returns, and is stored with the time of storing by the time it does |
| `Outcomes.OtherOutcomesShowNothing` | userinfo.go:66-97 | in every run a failed request, or an answer for another subject, shows and stores nothing |
| `Outcomes.StartsExactlyWhen` | keyset.go:47-63 | the runtime starts exactly with a first key set that is not empty |
| `Outcomes.SwapsInWhatItFetched` | keyset.go:116-131 | in every run a download that ends with any keys leaves the old set until the next swap and makes those keys current then |
| `Outcomes.RefreshTakesEffect` | keyset.go:73-132 | a whole refresh, from tick to swap, makes what it fetched current |
| `Outcomes.StopsForGood` | keyset.go:77-80 | once the context ends the refresher never runs again and the key set stays |
| `Outcomes.KeepsWhatItHas` | keyset.go:91-129 | one that fails, or ends with no keys, changes no key and leaves the refresher waiting |
| `FetchBound.FetchBound` | userinfo.go:48-104 | with at most k fills of a subject in flight, a window of length W starts at most k(1 + W/TTL) requests that do not fail; all others are failures |
| `FetchBound.OneTTL` | userinfo.go:48-104 | at most k such requests start within one TTL |
| `FetchBound.LiveTogether` | userinfo.go:49-57 | requests of one TTL were all in flight just before the first of them stored its answer |
| `FetchBound.LateCallsAreFresh` | userinfo.go:53-57 | a call that copies the entry after that store starts no request in the same window |
| `FetchBound.SequentialFetchesAreATTLApart` | userinfo.go:48-104 | with one fill at a time, two requests that do not fail are at least one TTL apart |
| `FullWindows.FetchBoundIsReached` | userinfo.go:48-104 | for every k and every window there is a run with at most k fills in flight that starts exactly k(1 + W/TTL) requests in it, none failing |
| `FailedFetches.FailuresAreNotCached` | userinfo.go:66-97 | for every n there is a run with one fill at a time and n failing requests at one instant |
| `KeySets.KeySet.Refresh` | keyset.go:91-132 | any set with keys replaces the key set; a failed fetch or an empty set keeps it and reports failure |
| `KeySets.KeySet.RefreshLoop` | keyset.go:73-89 | after any ticks the key set is the last usable outcome's, else the one before, and never becomes empty |
| `KeySets.NewKeySet` | keyset.go:47-63 | yields no key set exactly when the first fetch fails or is empty, and otherwise what it fetched |
| `KeySets.LastSetDecides` | keyset.go:73-132 | after any outcomes the key set is the last one fetched with keys, or the first if there was none |
| `Userinfo.UserinfoFetcher.Fill` | userinfo.go:48-104 | a fresh entry is shown; otherwise only an answer for this subject is shown and stored; any failure changes nothing |
| `Verifier.TokenVerifier.FillFromDisplayCookie` | verify.go:69-92 | shows the cookie token's pair only if it verifies and has the same subject |
| `Verifier.TokenVerifier.Authenticate` | verify.go:29-61 | the answer and the cache of one call that nothing interleaves with |
| `Verifier.TrustRefusesExactlyWhen` | verify.go:142-148 | in header-trust mode a request is refused if and only if it carries neither user nor email |
| `Verifier.TrustedIdentityIsTheHeaders` | verify.go:150-162 | otherwise subject, email, token and roles are those headers, and the name is the user or, without one, the email |
| `Verifier.TrustedRolesOfDuplicateHeaders` | ts/src/verify.ts:187-210 | in TypeScript header-trust mode, groups on several header lines give the roles of each line in order, all usable, and the same identity as one clean list |
| `Verifier.TrustedCallersAgreeExactlyWhen` | verify.go:142-162 | Go reads the first line only: its roles are a prefix of those TypeScript grants, and the identities are equal if and only if the other lines hold nothing but commas and white space |
| `Verifier.GoDropsTheSecondLine` | adapters/connectmw/connectmw.go:18-20 | for any two lines of one group each, Go grants the first group and TypeScript both |
| `Sources.TokenShape` | source.go:37-55 | an extracted token is non-empty, trimmed and a suffix of the trimmed header; nothing is rejected after the scheme has matched |
| `Sources.TokenIsRecovered` | source.go:37-55 | any token is recovered whole after the scheme in any case, a space and any white space, and whole without a scheme |
| `Sources.SchemeCaseIrrelevant` | source.go:47-52 | the letter case of the scheme never changes the result (section 2.1 of RFC 7235) |
| `Sources.GoAndTypeScriptAgree` | ts/src/source.ts:38-58 | the TypeScript reader extracts the same token from every header |
| `Sources.NestedChainIsFlat` | source.go:57-69 | however chains nest, the flat list of header sources decides |
| `Sources.DefaultTokenCases` | source.go:71-83 | the default source takes the forwarded access token if there is one, else a bearer token |
| `Sources.DownstreamToken` | source.go:104-121 | the token the downstream service extracts from what was forwarded |
| `Sources.ForwardingPreservesToken` | source.go:104-121 | it is the caller's own token if and only if one header is blank or both carry the same token |
| `Sources.ForwardingCanChangeTheCaller` | source.go:104-121 | two credentials for which it is not |
| `Sources.ForwardingIsIdempotent` | source.go:104-121 | forwarding what was forwarded gives the same value |
| `Groups.SplitAndTrimLoop` | source.go:85-102 | the Go append loop computes TypeScript's split, map and filter |
| `Groups.SplitAndTrimConcat` | source.go:85-102 | splitting a + sep + b is splitting a and splitting b |
| `Groups.SplitAndTrimIsIdempotent` | source.go:85-102 | joining and splitting again changes nothing |
| `Groups.PaddedGroupsAreRecovered` | ts/src/source.ts:92-101 | any list of trimmed non-empty separator-free groups is recovered under any padding |
| `Groups.DuplicateHeadersConcatenate` | ts/src/adapters.ts:14-32 | duplicated headers joined with ", " give the groups of each in order |
| `Groups.NoGroupsExactlyWhen` | source.go:85-102 | a header holds no group if and only if it is commas and white space |
| `Cookies.FindCookie` | verify.go:94-104 | the scan returns the first part whose name matches, else "" |
| `Cookies.LookupInvertsSerialize` | verify.go:94-104 | lookup in the serialized form of any list in the shape of section 4.2.1 of RFC 6265 gives the first binding's value, or "" |
| `Cookies.StrayPiecesAreIgnored` | verify.go:94-104 | parts without "=" change no lookup |
| `SignOut.SignOutIsNormalized` | signout.go:32-48 | the link starts with "/" and trailing slashes of a non-empty prefix do not change it |
| `SignOut.SignOutIs` | signout.go:32-48 | for a prefix in normal form the link is the prefix and "/sign_out", "" stands for "/oauth2", and the redirect is carried under every prefix |
| `SignOut.GoAndTypeScriptAgree` | ts/src/signout.ts:11-16 | the TypeScript link is the same if and only if the prefix is not "" |
| `Claims.StringsFrom` | claims.go:93-115 | the append loop keeps exactly the string items, in order |
| `Claims.ItemsAreReadInOrder` | claims.go:93-115 | an array grants its strings in order, wherever other items stand |
| `Claims.ClaimReadsAs` | claims.go:70-79 | a claim reads as a text if and only if it is that string |
| `Claims.RoleDecision` | gatewayauth.go:46-66 | any-of admission holds exactly when the claim's set of strings meets the required roles |
| `Claims.OnlyTheSetDecides` | claims.go:81-115 | claims with the same set of strings decide alike, whatever their shape, order and duplicates |
| `Adapters.FiberRequireRoles` | adapters/fibermw/fibermw.go:55-73 | exactly one event: the next handler with the caller attached, one 401 or one 403 |
| `Adapters.FiberOptional` | adapters/fibermw/fibermw.go:42-53 | always runs the next handler, with the caller attached only if verified |
| `Adapters.RequiredRoles` | adapters/humamw/humamw.go:82-96 | the scopes of the first requirement that names the scheme, and none exactly when none names it |
| `Adapters.HumaMiddleware` | adapters/humamw/humamw.go:54-80 | exactly one event; an operation that does not name the scheme is anonymous |
| `Adapters.ExpressAuthenticateThen` | ts/src/adapters.ts:82-106 | exactly one event, with an empty or absent role list admitting any authenticated caller |
| `Adapters.GuardsAgree` | adapters/fibermw/fibermw.go:58-73 | a client sees the same event under fiber as under huma and express, except that on an empty role list with checks enabled fiber answers 403 where they run the handler |
| `Adapters.EventsAre` | adapters/fibermw/fibermw.go:58-73 | a client sees 401 if and only if there is no identity, 403 if and only if checks are on and no required role is held, and otherwise the handler runs as the caller |
| `Adapters.ClaimShapeNeverChangesTheDecision` | claims.go:81-115 | rewriting the roles claim into one with the same set of strings changes no adapter's decision |
| `Values.NameCapIsExact` | charts/gateway-auth/templates/_helpers.tpl:25-31 | 47 is the largest cap under which every accepted base name makes the base, proxy, store and store-host names labels |
| `Values.AcceptedNamesAreExact` | charts/gateway-auth/templates/_helpers.tpl:25-59 | the name guard accepts exactly the labels whose proxy, store and store-host names are DNS-1123 labels of at most 63 characters |
| `Names.InstallNamesAreLegal` | charts/gateway-auth/templates/_helpers.tpl:14-24 | in every render all objects but the entries' have DNS-1123 subdomain names, save a generator named after a supplied Secret, and Services have labels |
| `Names.EntryNameIsLegalExactlyWhen` | charts/gateway-auth/templates/_exposure.tpl:498-506 | the HTTPRoute and SecurityPolicy name of an entry is legal if and only if the entry's name is short enough and made of dotted elements of letters, digits and hyphens |
| `Exposure.RendersExactlyWhen` | charts/gateway-auth/templates/_exposure.tpl:102-551 | a disabled exposure renders nothing; of the enabled ones, the values that render, all of them and no others: the guards at lines 102-109, 149-170, 204, 209, 261, 396, 479-481, 498, 511-513 and 550-551, and of the name and Secret helpers |
| `Install.ProxyIsWired` | charts/gateway-auth/templates/_exposure.tpl:336-496 | there is one proxy: its Deployment reads the one configuration, and its HTTPRoute and every policy call its Service, on the gateway, host and prefix of the values |
| `Install.DeploymentReadsItsSecrets` | charts/gateway-auth/templates/_exposure.tpl:401-416 | the client credentials come from the supplied Secret in static mode and otherwise from the OIDCApp's, the cookie key from the supplied Secret or else from what the ExternalSecret writes |
| `Install.ConfigIs` | charts/gateway-auth/templates/_exposure.tpl:11-139 | issuer, prefix, lifetimes, scopes, Authorization header and session store are those of the values, with their defaults |
| `Install.PolicyMeetsConfig` | charts/gateway-auth/templates/_exposure.tpl:592-631 | a groups rule trusts the issuer the proxy logs in with, and Authorization is passed on exactly when the proxy sets it |
| `Install.ClientIsRegistered` | charts/gateway-auth/templates/_exposure.tpl:185-229 | one OIDCApp is rendered exactly outside static mode, with the given or the default app name |
| `Install.StoreAndCookieAre` | charts/gateway-auth/templates/_exposure.tpl:235-334 | when the session store, the generator and the ExternalSecret are rendered, and under which names |
| `Install.NetworkPoliciesAre` | charts/gateway-auth/templates/_exposure.tpl:660-736 | exactly the two NetworkPolicies are rendered, exactly when asked for |
| `Install.NoEntriesProtectTheHost` | charts/gateway-auth/templates/_exposure.tpl:152-170 | without entries the whole host is one entry behind the groups rule |
| `Protection.CoverageInOrder` | charts/gateway-auth/templates/_exposure.tpl:497-659 | policies correspond one to one and in order with protected entries, with their targets and rules; each passes on the four identity headers the libraries read, the one its jwt rule reads among them; HTTPRoutes correspond with owned entries after the proxy's |
| `Protection.RouteNamesAreDistinct` | charts/gateway-auth/templates/_exposure.tpl:467-470 | HTTPRoute names are unique if and only if the owned entries' names are and none is "proxy" |
| `Protection.PolicyNamesAreDistinct` | charts/gateway-auth/templates/_exposure.tpl:556-566 | SecurityPolicy names are unique if and only if the protected entries' names are |
| `Protection.ProtectionIsExact` | charts/gateway-auth/templates/_exposure.tpl:497-659 | once the manifests are applied, the proxy route is open, every protected entry's route has a policy and only policies of its posture, and no other owned route has one, if and only if no protected entry is named like, or attaches to, a route that must stay open, and for each protected entry some protected entry that is the last of its name has its route, and all of those have its posture |
| `Protection.ProxyIsGuardedExactlyWhen` | charts/gateway-auth/templates/_exposure.tpl:456-470 | the proxy's route ends up behind a policy if and only if a protected entry that is the last of its name is named "proxy" or attaches to it |
| `Protection.DistinctNamesLoseNothing` | charts/gateway-auth/templates/_exposure.tpl:497-659 | with distinct names of protected entries no target is lost, and no posture is if and only if entries that share a route ask for the same |
| `Closure.RenderIsClosed` | charts/gateway-auth/templates/_exposure.tpl:235-334 | every reference resolves and every groups rule names a provider its own policy declares if and only if the store URL is empty or the cookie Secret is supplied; otherwise only the cookie generator dangles |
| `Closure.ClusterUrlMatchesCluster` | charts/gateway-auth/templates/_exposure.tpl:133-137 | the cluster URL is configured exactly when a ValkeyCluster is rendered, and names that cluster's Service |
| `Closure.UnusedGenerator` | charts/gateway-auth/templates/_exposure.tpl:283-308 | a generator is rendered with no ExternalSecret exactly when the cookie Secret is supplied and the store is not |
| `Scopes.ScopesAreSound` | charts/gateway-auth/templates/_exposure.tpl:93-110 | refresh comes with offline_access in the scope text; with the scopes left to the chart, offline_access and groups are whole scopes exactly when refresh and the allow-list are in use |
| `Scopes.GroupRulesAreSatisfiable` | charts/gateway-auth/templates/_exposure.tpl:162-170 | every rendered groups rule has a non-empty value list, and its scope is requested unless the scopes are overridden |
| `Scopes.GuardPassesInVain` | charts/gateway-auth/templates/_exposure.tpl:102-109 | the refresh guard passes overridden scopes that request no refresh token if and only if the letters occur and every occurrence touches another character than a space |
| `Scopes.GuardAcceptsALongerWord` | charts/gateway-auth/templates/_exposure.tpl:102-109 | a family of such lists |
| `Scopes.RefreshWorksExactlyWhen` | charts/gateway-auth/templates/_exposure.tpl:93-110 | offline_access is requested as a scope if and only if the chart chose the scopes or the letters occur in the given text between spaces or ends |
| `Routing.ProxyPathsReachTheProxy` | charts/gateway-auth/templates/_exposure.tpl:461-496 | once the manifests are applied, a path under the proxy prefix selects the proxy's own route alone if and only if no owned entry is named "proxy" and none that is the last of its name matches it exactly or with an equal or longer prefix |
| `Routing.OtherPathsAreUntouched` | charts/gateway-auth/templates/_exposure.tpl:461-496 | for every other path the proxy route changes no selection |
| `Routing.RequestsMeetTheirEntry` | charts/gateway-auth/templates/_exposure.tpl:461-659 | with no stray target and nothing lost, an HTTPRoute that a request of any path selects is behind no policy if and only if it is the proxy's or an unprotected entry's, and behind only policies of its entry's posture otherwise |
| `Routing.PrefixMeaning` | charts/gateway-auth/templates/_exposure.tpl:484-488 | an element-wise prefix matches a path that equals it or continues it with "/" |
| `Routing.LongerByElementsOrCharacters` | charts/gateway-auth/templates/_exposure.tpl:484-488 | among prefixes of one path, precedence by elements and by characters agree |
| `Routing.SignOutReachesTheProxy` | signout.go:32-48 | the sign-out link lies literally under the rendered match if and only if the prefix is rooted with no trailing slash, and is matched by it if and only if it is rooted |
| `Routing.CallbacksAgree` | charts/gateway-auth/templates/_exposure.tpl:16-23 | the redirect_url of the proxy's configuration equals the OIDCApp redirect spelled at line 219, lies under its proxy_prefix, and under the proxy route's path on the host |
| `Counterexamples.DanglingGenerator` | charts/gateway-auth/templates/_exposure.tpl:283-334 | values that render and are not closed |
| `Counterexamples.GeneratorNobodyUses` | charts/gateway-auth/templates/_exposure.tpl:283-288 | values that render a generator no document refers to |
| `Counterexamples.ProxyBehindItself` | charts/gateway-auth/templates/_exposure.tpl:456-470 | values that render and put a policy on the proxy's route |
| `Counterexamples.LostPolicy` | charts/gateway-auth/templates/_exposure.tpl:556-575 | values that render with no stray target and distinct routes, and leave a protected route open once applied |
| `Counterexamples.LostAllowList` | charts/gateway-auth/templates/_exposure.tpl:556-659 | values that render with no stray or lost target and distinct routes, and replace a groups rule by any login |
| `Counterexamples.ReplacedProxyRoute` | charts/gateway-auth/templates/_exposure.tpl:469-536 | values that render with exact protection and no entry taking the sign-in path, and no longer route it to the proxy |
| `Counterexamples.RefreshThatCannotWork` | charts/gateway-auth/templates/_exposure.tpl:102-109 | values that render with a refresh interval and do not request offline_access |
| `Counterexamples.IllegalEntryName` | charts/gateway-auth/templates/_helpers.tpl:19-24 | values that render an HTTPRoute with an illegal name |

## Left out

- HTTP, JSON, timeouts and logging: a fetch is an arbitrary outcome, and the 1 MiB limit on a key set is one way for it to fail.
- JWT and JWK cryptography: one arbitrary verdict function.
- Non-ASCII white space and case folding, and byte against UTF-16 lengths, where Go and JavaScript may differ.
- `url.QueryEscape` and `encodeURIComponent`: an arbitrary function on the redirect.
- Context cancellation of a single call: the runtime only stops the refresher.
- `claimsMap` and `withDefaults`: the claims are carried over as one map, and the defaults are one expression.
- `fibermw.Require`, `humamw.registerScheme`, `connectmw`, `profile.go`, `discovery.go` and the React badge: wiring.
- `ts/src/verify.ts` and `ts/src/userinfo.ts`: the same cache algorithm, with key rotation owned by jose.
- Userinfo.UserinfoFetcher.Fill: states one fill that nothing interleaves with; interleaving is in `Runtime.dfy`, on values, which shares the method's functions but not its mutable cache object.
- Verifier.TokenVerifier.Authenticate: states one call that nothing interleaves with, for the same reason.
- YAML text, annotations, labels, selectors, probes, resources, scheduling, cookie domains, Valkey sizing and image, and the rules inside NetworkPolicies.
- Helm's distinction between an unset and an empty string, list or gateway block, which the template treats alike; backends keep it.
- How two manifests of one kind and name are applied, other than in order with the last one kept.
- `Get` of fiber and huma on a repeated header: taken to return the first line, as `http.Header.Get` does.
- The order in which several render errors would be reported.
- Gateway API ties between equal prefixes: all routes with the winning prefix count as selected.
