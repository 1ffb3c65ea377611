/** The sign-out link (signout.go, ts/src/signout.ts). */
module SignOut {
  function TrimSlashes(s: string): string {
    if s != "" && s[|s| - 1] == '/' then TrimSlashes(s[..|s| - 1]) else s
  }

  function WithSlash(prefix: string): string {
    if prefix != "" && prefix[0] == '/' then prefix else "/" + prefix
  }

  /** `escape` stands for `url.QueryEscape`. */
  function SignOutURL(proxyPrefix: string, redirectTo: string, escape: string -> string): string {
    var prefix := if proxyPrefix == "" then "/oauth2" else proxyPrefix;
    var base := TrimSlashes(WithSlash(prefix)) + "/sign_out";
    if redirectTo == "" then base else base + "?rd=" + escape(redirectTo)
  }

  /** TypeScript: the default applies to an omitted argument only, not to "". */
  function SignOutUrlTs(proxyPrefix: string, redirectTo: string, escape: string -> string): string {
    var base := TrimSlashes(WithSlash(proxyPrefix)) + "/sign_out";
    if redirectTo != "" then base + "?rd=" + escape(redirectTo) else base
  }

  lemma {:induction false} TrimSlashesShape(s: string)
    ensures TrimSlashes(s) <= s
    ensures TrimSlashes(s) == "" || TrimSlashes(s)[|TrimSlashes(s)| - 1] != '/'
    ensures TrimSlashes(s) == s <==> (s == "" || s[|s| - 1] != '/')
  {
    if s != "" && s[|s| - 1] == '/' {
      TrimSlashesShape(s[..|s| - 1]);
    }
  }

  predicate Slashes(s: string) {
    forall i | 0 <= i < |s| :: s[i] == '/'
  }

  lemma {:induction false} TrimSlashesTail(s: string, tail: string)
    requires Slashes(tail)
    ensures TrimSlashes(s + tail) == TrimSlashes(s)
  {
    if tail == "" {
      assert s + tail == s;
    } else {
      assert (s + tail)[..|s + tail| - 1] == s + tail[..|tail| - 1];
      TrimSlashesTail(s, tail[..|tail| - 1]);
    }
  }

  /** The link is always host-relative, and slashes after a non-empty prefix do not change it. */
  lemma SignOutIsNormalized(prefix: string, tail: string, redirectTo: string, escape: string -> string)
    requires Slashes(tail)
    ensures SignOutURL(prefix, redirectTo, escape)[0..1] == "/"
    ensures prefix != "" ==>
              SignOutURL(prefix + tail, redirectTo, escape) == SignOutURL(prefix, redirectTo, escape)
  {
    var p := if prefix == "" then "/oauth2" else prefix;
    TrimSlashesShape(WithSlash(p));
    if prefix != "" {
      assert WithSlash(prefix + tail) == WithSlash(prefix) + tail;
      TrimSlashesTail(WithSlash(prefix), tail);
    }
  }

  /**
    For a prefix in normal form the link is the prefix and "/sign_out"; "" stands for "/oauth2", a
    missing slash is supplied, and the redirect is carried, escaped, under every prefix.
   */
  lemma SignOutIs(prefix: string, redirectTo: string, escape: string -> string)
    ensures redirectTo != "" ==>
              SignOutURL(prefix, redirectTo, escape) == SignOutURL(prefix, "", escape) + "?rd=" + escape(redirectTo)
    ensures SignOutURL("", "", escape) == "/oauth2/sign_out"
    ensures prefix != "" && prefix[0] != '/' ==>
              SignOutURL(prefix, "", escape) == SignOutURL("/" + prefix, "", escape)
    ensures prefix != "" && prefix[0] == '/' && prefix[|prefix| - 1] != '/' ==>
              SignOutURL(prefix, "", escape) == prefix + "/sign_out"
  {
    TrimSlashesShape("/oauth2");
    TrimSlashesShape(prefix);
    assert "/oauth2" + "/sign_out" == "/oauth2/sign_out";
  }

  /** Go and TypeScript build the same link for every prefix but "", which only Go defaults. */
  lemma GoAndTypeScriptAgree(prefix: string, redirectTo: string, escape: string -> string)
    ensures SignOutURL(prefix, redirectTo, escape) == SignOutUrlTs(prefix, redirectTo, escape) <==>
            prefix != ""
  {
    if prefix == "" {
      TrimSlashesShape("/oauth2");
      assert TrimSlashes("/") == TrimSlashes("");
      assert SignOutURL("", redirectTo, escape)[1] == 'o';
      assert SignOutUrlTs("", redirectTo, escape)[1] == 's';
    }
  }
}
