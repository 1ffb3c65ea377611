/** Whether the names of the rendered objects are legal (_helpers.tpl, _exposure.tpl). */
module Names {
  import opened Text
  import opened Values
  import opened Exposure
  import opened Protection
  import opened Closure

  /** A DNS-1123 subdomain, what an object's name must be: dotted, at most 253 characters. */
  predicate Subdomain(s: string) {
    |s| <= 253 && forall i | 0 <= i < |Split(s, '.')| :: Hyphenated(Split(s, '.')[i])
  }

  lemma {:induction false} SplitAfterPrefix(prefix: string, s: string, sep: char)
    requires Without(prefix, sep)
    ensures Split(prefix + s, sep) == [prefix + Split(s, sep)[0]] + Split(s, sep)[1..]
  {
    if prefix == "" {
      assert prefix + s == s && "" + Split(s, sep)[0] == Split(s, sep)[0];
    } else {
      assert (prefix + s)[1..] == prefix[1..] + s;
      SplitAfterPrefix(prefix[1..], s, sep);
      assert [prefix[0]] + (prefix[1..] + Split(s, sep)[0]) == prefix + Split(s, sep)[0];
    }
  }

  lemma HyphenatedIsSubdomain(s: string)
    requires Hyphenated(s) && |s| <= 253
    ensures Subdomain(s)
  {
    SplitWithout(s, '.');
  }

  lemma DerivedName(base: string, suffix: string)
    requires NameAccepted(base) && |suffix| <= 206
    requires suffix != "" && Alnum(suffix[|suffix| - 1]) && AlnumOrHyphen(suffix)
    ensures Subdomain(base + suffix)
  {
    AcceptedNamesAreExact(base);
    WithSuffix(base, suffix);
    HyphenatedIsSubdomain(base + suffix);
  }

  lemma DerivedNames(base: string)
    requires NameAccepted(base)
    ensures Subdomain(base + "-oidc") && Subdomain(base + "-cookie") && Subdomain(Dashed(base, PROXY_ROUTE))
    ensures Subdomain(ProxyName(base)) && Subdomain(ValkeyName(base))
    ensures Subdomain(ProxyName(base) + "-ingress") && Subdomain(ValkeyName(base) + "-operator")
  {
    DerivedName(base, "-oidc");
    DerivedName(base, "-cookie");
    DerivedName(base, "-oauth2-proxy");
    DerivedName(base, "-sessions");
    DerivedName(base, "-oauth2-proxy-ingress");
    DerivedName(base, "-sessions-operator");
    DerivedName(base, "-proxy");
    assert Dashed(base, PROXY_ROUTE) == base + "-proxy";
    assert ProxyName(base) + "-ingress" == base + "-oauth2-proxy-ingress";
    assert ValkeyName(base) + "-operator" == base + "-sessions-operator";
  }

  /** A legal name; a generator is named after a cookie Secret the caller supplies, if any. */
  predicate Named(v: Values, d: Manifest) {
    || Subdomain(d.name)
    || (d.Password? && v.cookieSecret != "" && d.name == v.cookieSecret)
  }

  lemma InstallNames(v: Values, d: Manifest)
    requires OidcDocs(v).Success? && StoreDocs(v).Success? && ProxyDocs(v).Success?
    requires NameAccepted(BaseName(v)) && d in InstallDocs(v)
    ensures Named(v, d) && (d.Service? ==> DnsLabel(d.name))
  {
    InstallKinds(v);
    DerivedNames(BaseName(v));
    AcceptedNamesAreExact(BaseName(v));
  }

  /** Every object of a render that is not an entry's has a legal name, and a Service's is a label. */
  lemma InstallNamesAreLegal(v: Values, docs: seq<Manifest>, d: Manifest)
    requires Rendered(v, docs) && d in docs && !d.SecurityPolicy?
    requires d.HTTPRoute? ==> d.name == Dashed(BaseName(v), PROXY_ROUTE)
    ensures Named(v, d) && (d.Service? ==> DnsLabel(d.name))
  {
    var entries := RenderParts(v, docs);
    if d in InstallDocs(v) {
      InstallNames(v, d);
    } else {
      EntryKinds(v, Routes(v), entries);
      assert d == ProxyRoute(v) || d in entries || d in PolicyDocs(v);
      DerivedNames(BaseName(v));
    }
  }

  /** What may follow the base name and a hyphen in one element. */
  predicate Continues(s: string) {
    s != "" && Alnum(s[|s| - 1]) && AlnumOrHyphen(s)
  }

  /**
    Nothing checks an entry's own name. The HTTPRoute and SecurityPolicy named after it are legal
    exactly when the name is short enough and its elements are letters, digits and inner hyphens,
    hyphens being allowed at the very start.
   */
  lemma EntryNameIsLegalExactlyWhen(base: string, name: string)
    requires NameAccepted(base)
    ensures Subdomain(Dashed(base, name)) <==>
            var elements := Split(name, '.');
            && |base| + 1 + |name| <= 253 && Continues(elements[0])
            && forall i | 0 < i < |elements| :: Hyphenated(elements[i])
  {
    AcceptedNamesAreExact(base);
    var elements, whole := Split(name, '.'), Split(Dashed(base, name), '.');
    SplitAfterPrefix(base + "-", name, '.');
    assert Without(base, '.');
    assert whole == [base + "-" + elements[0]] + elements[1..];
    FirstElement(base, elements[0]);
    assert forall i | 0 < i < |elements| :: whole[i] == elements[i];
    assert (forall i | 0 <= i < |whole| :: Hyphenated(whole[i])) <==>
           Hyphenated(whole[0]) && forall i | 0 < i < |elements| :: Hyphenated(elements[i]);
  }

  lemma FirstElement(base: string, first: string)
    requires Hyphenated(base)
    ensures Hyphenated(base + "-" + first) <==> Continues(first)
  {
    var s := base + "-" + first;
    assert forall i | 0 <= i < |first| :: s[|base| + 1 + i] == first[i];
    assert first == "" ==> s[|s| - 1] == '-';
  }
}
