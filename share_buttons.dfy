/**
 * The two pure helpers of components/ShareButtons.tsx: the share-text
 * sanitizer and the host allowlist applied to a share URL. The `URL`
 * parser is the parameter `parseUrl`; `None` stands for a throw.
 */
module ShareButtons {
  import opened Common

  /** The characters of the class `[<>"'&]`. */
  predicate IsShareUnsafe(c: char) {
    c == '<' || c == '>' || c == '"' || c == '\'' || c == '&'
  }

  predicate ShareSafe(s: string) {
    forall i :: 0 <= i < |s| ==> !IsShareUnsafe(s[i])
  }

  /** `sanitizeText`: every character of the class is deleted. */
  function SanitizeText(text: string): (r: string)
    ensures |r| <= |text|
    ensures ShareSafe(r)
  {
    if text == [] then []
    else (if IsShareUnsafe(text[0]) then [] else [text[0]]) + SanitizeText(text[1..])
  }

  /** The other characters are kept in their order... */
  lemma {:induction false} SanitizeTextKeepsOrder(text: string)
    ensures IsSubsequence(SanitizeText(text), text)
  {
    if text != [] {
      var rest := SanitizeText(text[1..]);
      SanitizeTextKeepsOrder(text[1..]);
      if IsShareUnsafe(text[0]) {
        assert SanitizeText(text) == rest;
        SubsequenceCons(text[0], rest, text[1..]);
        assert [text[0]] + text[1..] == text;
      } else {
        assert SanitizeText(text) == [text[0]] + rest;
        assert ([text[0]] + rest)[1..] == rest;
      }
    }
  }

  /** ...and every occurrence of them survives, so only the five characters
      are ever deleted. */
  lemma {:induction false} SanitizeTextKeepsSafeChars(text: string, c: char)
    requires !IsShareUnsafe(c)
    ensures multiset(SanitizeText(text))[c] == multiset(text)[c]
  {
    if text != [] {
      SanitizeTextKeepsSafeChars(text[1..], c);
      assert text == [text[0]] + text[1..];
      assert multiset(text) == multiset([text[0]]) + multiset(text[1..]);
    }
  }

  /** Text without any of the five characters is returned unchanged. */
  lemma {:induction false} SanitizeTextFixesSafe(text: string)
    requires ShareSafe(text)
    ensures SanitizeText(text) == text
  {
    if text != [] {
      assert ShareSafe(text[1..]) by {
        forall i | 0 <= i < |text[1..]| ensures !IsShareUnsafe(text[1..][i]) {
          assert text[1..][i] == text[i + 1];
        }
      }
      SanitizeTextFixesSafe(text[1..]);
      assert [text[0]] + text[1..] == text;
    }
  }

  /** Applying the sanitizer twice is the same as once. */
  lemma SanitizeTextIdempotent(text: string)
    ensures SanitizeText(SanitizeText(text)) == SanitizeText(text)
  {
    SanitizeTextFixesSafe(SanitizeText(text));
  }

  /** The deletion works character by character: it distributes over concatenation. */
  lemma {:induction false} SanitizeTextAppend(a: string, b: string)
    ensures SanitizeText(a + b) == SanitizeText(a) + SanitizeText(b)
  {
    if a != [] {
      assert (a + b)[0] == a[0];
      assert (a + b)[1..] == a[1..] + b;
      SanitizeTextAppend(a[1..], b);
    } else {
      assert a + b == b;
    }
  }

  /** `allowedDomains`. */
  const AllowedDomains := ["twitter.com", "x.com", "social-plugins.line.me"]

  /** `domains.some((domain) => host.endsWith(domain))`. */
  function SomeSuffix(host: string, domains: seq<string>): (b: bool)
    ensures b <==> exists k :: 0 <= k < |domains| && EndsWith(host, domains[k])
  {
    if domains == [] then false
    else EndsWith(host, domains[0]) || SomeSuffix(host, domains[1..])
  }

  /** `validateAndSanitizeUrl`: the serialised URL when its host name ends with
      one of the allowed domains, `None` otherwise or when parsing fails. */
  function ValidateAndSanitizeUrl(url: string, parseUrl: string -> Option<UrlParts>): (r: Option<string>)
    ensures parseUrl(url).None? ==> r.None?
    ensures r.Some? <==> (parseUrl(url).Some? &&
                          (EndsWith(parseUrl(url).value.hostname, "twitter.com") ||
                           EndsWith(parseUrl(url).value.hostname, "x.com") ||
                           EndsWith(parseUrl(url).value.hostname, "social-plugins.line.me")))
    ensures r.Some? ==> r.value == parseUrl(url).value.href
  {
    match parseUrl(url)
    case None => None
    case Some(u) =>
      var ok := SomeSuffix(u.hostname, AllowedDomains);
      assert ok <==> (EndsWith(u.hostname, AllowedDomains[0]) || EndsWith(u.hostname, AllowedDomains[1]) ||
                      EndsWith(u.hostname, AllowedDomains[2]));
      if ok then Some(u.href) else None
  }

  /** The allowlist is a plain suffix test: any host name that merely ends in
      an allowed domain passes, such as `evilx.com` for `x.com`, which is
      neither `x.com` nor one of its subdomains. */
  lemma SuffixAdmitsLookalikeHost(url: string, parseUrl: string -> Option<UrlParts>, prefix: string)
    requires parseUrl(url).Some? && parseUrl(url).value.hostname == prefix + "x.com"
    ensures ValidateAndSanitizeUrl(url, parseUrl) == Some(parseUrl(url).value.href)
  {
    assert (prefix + "x.com")[|prefix|..] == "x.com";
  }

  /** `evilx.com` is such a host name: not `x.com` and not below `.x.com`. */
  lemma LookalikeIsNotSubdomain()
    ensures "evilx.com" != "x.com" && !EndsWith("evilx.com", ".x.com")
  {
    var h := "evilx.com";
    assert |h| != |"x.com"|;
    assert h[|h| - 6..][0] == 'l';
  }
}
