/** Domains in WMP identifiers, and the did:web host and path codec (pkg/wmp/discovery.go). */
module Discovery {
  import opened Options
  import opened Text

  /** The part of `s` before the first character that is in `stops`. */
  function Before(s: string, stops: string): (r: string)
    ensures r <= s
    ensures forall c :: c in r ==> c !in stops
  {
    if s == "" || s[0] in stops then "" else [s[0]] + Before(s[1..], stops)
  }

  /** `strings.Split` on one character. */
  function Split(s: string, sep: char): (parts: seq<string>)
    ensures parts != []
  {
    if s == "" then [""]
    else if s[0] == sep then [""] + Split(s[1..], sep)
    else
      var rest := Split(s[1..], sep);
      [[s[0]] + rest[0]] + rest[1..]
  }

  /** `strings.Join`. */
  function Join(parts: seq<string>, sep: char): string {
    if parts == [] then ""
    else if |parts| == 1 then parts[0]
    else parts[0] + [sep] + Join(parts[1..], sep)
  }

  const ESCAPED_COLON := "%3A"

  /** `strings.ReplaceAll(s, "%3A", ":")`. */
  function UnescapeColons(s: string): string
    decreases |s|
  {
    if s == "" then ""
    else if HasPrefix(s, ESCAPED_COLON) then ":" + UnescapeColons(s[3..])
    else [s[0]] + UnescapeColons(s[1..])
  }

  predicate ContainsAny(s: string, chars: string) {
    exists c :: c in s && c in chars
  }

  predicate IsValidDidWebDomain(domain: string) {
    domain != "" && !ContainsAny(domain, "/\\?#@") && !HasPrefix(domain, ".")
  }

  const DID_WEB := "did:web:"

  datatype DidWeb = DidWeb(domain: string, path: string)

  function ParseDidWeb(did: string): Option<DidWeb> {
    if !HasPrefix(did, DID_WEB) then None
    else
      var parts := Split(did[|DID_WEB|..], ':');
      var domain := UnescapeColons(parts[0]);
      if !IsValidDidWebDomain(domain) then None
      else Some(DidWeb(domain, if |parts| > 1 then Join(parts[1..], '/') else ""))
  }

  const HTTPS := "https://"
  const SAN_DNS := "x509:san:dns:"
  const SAN_URI := "x509:san:uri:https://"

  /** Empty if there is no domain. */
  function ExtractDomain(identifier: string): string {
    if HasPrefix(identifier, DID_WEB) then
      var d := ParseDidWeb(identifier);
      if d.Some? then d.value.domain else ""
    else if HasPrefix(identifier, HTTPS) then Before(identifier[|HTTPS|..], "/?#")
    else if HasPrefix(identifier, SAN_DNS) then identifier[|SAN_DNS|..]
    else if HasPrefix(identifier, SAN_URI) then Before(identifier[|SAN_URI|..], "/?#")
    else ""
  }

  function WellKnownUrl(domain: string): Option<string> {
    if domain == "" || ContainsAny(domain, "/?#@\\") then None
    else Some(HTTPS + domain + "/.well-known/wmp-configuration")
  }

  // ---- Printing did:web identifiers ----

  /** A host with its colons written as %3A. */
  function EscapeColons(host: string): string {
    if host == "" then ""
    else (if host[0] == ':' then ESCAPED_COLON else [host[0]]) + EscapeColons(host[1..])
  }

  function PrintDidWeb(host: string, segments: seq<string>): string {
    DID_WEB + Join([EscapeColons(host)] + segments, ':')
  }

  predicate Contains(s: string, part: string) {
    if HasPrefix(s, part) then true else s != "" && Contains(s[1..], part)
  }

  lemma {:induction false} SplitPlain(s: string, sep: char)
    requires sep !in s
    ensures Split(s, sep) == [s]
  {
    if s != "" {
      SplitPlain(s[1..], sep);
      assert [s[0]] + s[1..] == s;
    }
  }

  lemma {:induction false} SplitAtFirst(s: string, sep: char, rest: string)
    requires sep !in s
    ensures Split(s + [sep] + rest, sep) == [s] + Split(rest, sep)
  {
    var all := s + [sep] + rest;
    if s == "" {
      assert all[1..] == rest;
    } else {
      assert all[1..] == s[1..] + [sep] + rest;
      SplitAtFirst(s[1..], sep, rest);
      assert [s[0]] + s[1..] == s;
    }
  }

  lemma {:induction false} SplitJoin(parts: seq<string>, sep: char)
    requires parts != [] && forall p :: p in parts ==> sep !in p
    ensures Split(Join(parts, sep), sep) == parts
  {
    assert parts[0] in parts;
    if |parts| == 1 {
      SplitPlain(parts[0], sep);
    } else {
      SplitAtFirst(parts[0], sep, Join(parts[1..], sep));
      SplitJoin(parts[1..], sep);
    }
  }

  lemma {:induction false} EscapeRemovesColons(host: string)
    ensures ':' !in EscapeColons(host)
  {
    if host != "" {
      EscapeRemovesColons(host[1..]);
    }
  }

  lemma EscapeHead(host: string)
    requires host != ""
    ensures EscapeColons(host) != "" && EscapeColons(host)[0] == if host[0] == ':' then '%' else host[0]
    ensures host[0] != ':' ==> EscapeColons(host)[1..] == EscapeColons(host[1..])
  {
  }

  /** Apart from leading colons, the escaped text starts with %3A exactly when the host does. */
  lemma EscapedPrefix(host: string)
    requires host != "" && host[0] != ':'
    ensures HasPrefix(EscapeColons(host), ESCAPED_COLON) <==> HasPrefix(host, ESCAPED_COLON)
  {
    var e := EscapeColons(host);
    EscapeHead(host);
    if |host| >= 2 {
      var host1 := host[1..];
      EscapeHead(host1);
      assert e[1] == EscapeColons(host1)[0];
      if host1[0] != ':' && |host| >= 3 {
        EscapeHead(host1[1..]);
        assert e[1..][1..] == EscapeColons(host1[1..]);
        assert e[2] == e[1..][1..][0];
      }
    }
  }

  lemma EscapeThree(host: string)
    requires HasPrefix(host, ESCAPED_COLON)
    ensures EscapeColons(host) == ESCAPED_COLON + EscapeColons(host[3..])
  {
    assert host[1..][1..][1..] == host[3..];
    assert EscapeColons(host) == ['%'] + EscapeColons(host[1..]);
    assert EscapeColons(host[1..]) == ['3'] + EscapeColons(host[1..][1..]);
    assert EscapeColons(host[1..][1..]) == ['A'] + EscapeColons(host[3..]);
  }

  /** Unescaping undoes escaping, or else shortens the host; it undoes it exactly if %3A is not in the host. */
  lemma {:induction false} EscapeRoundTrip(host: string)
    ensures UnescapeColons(EscapeColons(host)) == host <==> !Contains(host, ESCAPED_COLON)
    ensures Contains(host, ESCAPED_COLON) ==> |UnescapeColons(EscapeColons(host))| < |host|
    ensures |UnescapeColons(EscapeColons(host))| <= |host|
    decreases |host|
  {
    if host != "" {
      var e := EscapeColons(host);
      if host[0] == ':' {
        EscapeRoundTrip(host[1..]);
        assert e[3..] == EscapeColons(host[1..]);
      } else if HasPrefix(host, ESCAPED_COLON) {
        EscapeRoundTrip(host[3..]);
        EscapeThree(host);
        assert e[3..] == EscapeColons(host[3..]);
      } else {
        EscapedPrefix(host);
        EscapeRoundTrip(host[1..]);
        assert e[1..] == EscapeColons(host[1..]);
        assert UnescapeColons(e) == [host[0]] + UnescapeColons(EscapeColons(host[1..]));
      }
    }
  }

  /**
   * did:web round trip: for every valid host and colon-free path segments, parsing the printed
   * identifier gives back the host and the segments joined by '/', exactly if the host does not
   * itself contain the text %3A.
   */
  lemma DidWebRoundTrip(host: string, segments: seq<string>)
    requires IsValidDidWebDomain(host) && forall s :: s in segments ==> ':' !in s
    ensures ParseDidWeb(PrintDidWeb(host, segments)) == Some(DidWeb(host, Join(segments, '/')))
            <==> !Contains(host, ESCAPED_COLON)
  {
    var parts := [EscapeColons(host)] + segments;
    EscapeRemovesColons(host);
    SplitJoin(parts, ':');
    EscapeRoundTrip(host);
    var did := PrintDidWeb(host, segments);
    assert did[|DID_WEB|..] == Join(parts, ':');
    assert parts[1..] == segments;
  }

  /** In particular the domain of a printed identifier is its host. */
  lemma DomainOfPrinted(host: string, segments: seq<string>)
    requires IsValidDidWebDomain(host) && !Contains(host, ESCAPED_COLON) && forall s :: s in segments ==> ':' !in s
    ensures ExtractDomain(PrintDidWeb(host, segments)) == host
  {
    DidWebRoundTrip(host, segments);
  }

  /**
   * Every domain taken from a did:web identifier is free of path, query, fragment and userinfo
   * separators, so the well-known URL built from it has that domain as its authority.
   */
  lemma AcceptedDomainsAreClean(did: string)
    requires HasPrefix(did, DID_WEB) && ExtractDomain(did) != ""
    ensures var d := ExtractDomain(did);
            && (forall c :: c in d ==> c !in "/\\?#@")
            && d[0] != '.'
            && WellKnownUrl(d) == Some(HTTPS + d + "/.well-known/wmp-configuration")
            && Before(WellKnownUrl(d).value[|HTTPS|..], "/?#") == d
  {
    ValidDomainIsClean(ExtractDomain(did), "/.well-known/wmp-configuration");
  }

  lemma ValidDomainIsClean(d: string, path: string)
    requires IsValidDidWebDomain(d) && path != "" && path[0] == '/'
    ensures (forall c :: c in d ==> c !in "/\\?#@") && d[0] != '.'
    ensures !ContainsAny(d, "/?#@\\")
    ensures Before((HTTPS + d + path)[|HTTPS|..], "/?#") == d
  {
    BeforeClean(d, "/?#", path);
    assert (HTTPS + d + path)[|HTTPS|..] == d + path;
  }

  lemma {:induction false} BeforeClean(s: string, stops: string, rest: string)
    requires (forall c :: c in s ==> c !in stops) && rest != "" && rest[0] in stops
    ensures Before(s + rest, stops) == s
  {
    if s == "" {
      assert s + rest == rest;
    } else {
      assert (s + rest)[1..] == s[1..] + rest;
      BeforeClean(s[1..], stops, rest);
    }
  }

  /** The domain of an https identifier is what stands before its path, query or fragment. */
  lemma HttpsDomain(host: string, rest: string)
    requires forall c :: c in host ==> c !in "/?#"
    requires rest == "" || rest[0] in "/?#"
    ensures ExtractDomain("https://" + (host + rest)) == host
  {
    BeforeEnd(host, "/?#", rest);
    assert (HTTPS + (host + rest))[|HTTPS|..] == host + rest;
    assert (HTTPS + (host + rest))[0] == 'h';
  }

  /** The same for an https URI in a certificate. */
  lemma SanUriDomain(host: string, rest: string)
    requires forall c :: c in host ==> c !in "/?#"
    requires rest == "" || rest[0] in "/?#"
    ensures ExtractDomain("x509:san:uri:https://" + (host + rest)) == host
  {
    var uri := SAN_URI + (host + rest);
    BeforeEnd(host, "/?#", rest);
    assert uri[|SAN_URI|..] == host + rest;
    assert uri[0] == 'x' && uri[9] == 'u';
  }

  /** A DNS name in a certificate is its own domain. */
  lemma SanDnsDomain(name: string)
    ensures ExtractDomain("x509:san:dns:" + name) == name
  {
    assert (SAN_DNS + name)[0] == 'x' && (SAN_DNS + name)[|SAN_DNS|..] == name;
  }

  lemma BeforeEnd(s: string, stops: string, rest: string)
    requires (forall c :: c in s ==> c !in stops) && (rest == "" || rest[0] in stops)
    ensures Before(s + rest, stops) == s
  {
    if rest != "" {
      BeforeClean(s, stops, rest);
    } else {
      assert s + rest == s;
      BeforeNone(s, stops);
    }
  }

  lemma {:induction false} BeforeNone(s: string, stops: string)
    requires forall c :: c in s ==> c !in stops
    ensures Before(s, stops) == s
  {
    if s != "" {
      BeforeNone(s[1..], stops);
    }
  }

  // ---- Exactly which identifiers have which domain ----

  /** A host is valid if it is not empty, does not start with a dot and has none of five characters; a port is fine. */
  lemma ValidHostIff(host: string)
    ensures IsValidDidWebDomain(host) <==>
            && host != "" && host[0] != '.'
            && forall c :: c in host ==> c != '/' && c != '\\' && c != '?' && c != '#' && c != '@'
  {
  }

  /** An identifier with none of the four prefixes has no domain. */
  lemma NoDomain(identifier: string)
    requires !("did:web:" <= identifier) && !("https://" <= identifier)
    requires !("x509:san:dns:" <= identifier) && !("x509:san:uri:https://" <= identifier)
    ensures ExtractDomain(identifier) == ""
  {
  }

  /** Escaping writes each colon as %3A and leaves everything else alone. */
  lemma {:induction false} EscapeExact(head: string, rest: string)
    requires ':' !in head
    ensures EscapeColons(head) == head
    ensures EscapeColons(head + (":" + rest)) == head + ("%3A" + EscapeColons(rest))
  {
    if head == "" {
      assert head + (":" + rest) == ":" + rest;
      assert (":" + rest)[1..] == rest;
    } else {
      assert (head + (":" + rest))[1..] == head[1..] + (":" + rest);
      EscapeExact(head[1..], rest);
    }
  }

  /** Every text without a colon is the escape of what it unescapes to, so unescaping is the inverse. */
  lemma {:induction false} UnescapeInverse(s: string)
    requires ':' !in s
    ensures EscapeColons(UnescapeColons(s)) == s
    decreases |s|
  {
    if s != "" {
      if HasPrefix(s, ESCAPED_COLON) {
        UnescapeInverse(s[3..]);
        assert (":" + UnescapeColons(s[3..]))[1..] == UnescapeColons(s[3..]);
      } else {
        UnescapeInverse(s[1..]);
        assert ([s[0]] + UnescapeColons(s[1..]))[1..] == UnescapeColons(s[1..]);
      }
    }
  }

  /**
   * Any did:web identifier: its parts between colons are a host, unescaped, and a path. It has that host
   * as its domain, and that path, exactly if the unescaped host is valid.
   */
  lemma AnyDidWeb(host: string, segments: seq<string>)
    requires ':' !in host && forall s :: s in segments ==> ':' !in s
    ensures var did, domain := "did:web:" + Join([host] + segments, ':'), UnescapeColons(host);
            && ParseDidWeb(did)
               == (if IsValidDidWebDomain(domain) then Some(DidWeb(domain, Join(segments, '/'))) else None)
            && ExtractDomain(did) == (if IsValidDidWebDomain(domain) then domain else "")
  {
    var parts := [host] + segments;
    SplitJoin(parts, ':');
    var did := "did:web:" + Join(parts, ':');
    assert did[|DID_WEB|..] == Join(parts, ':');
    assert parts[1..] == segments;
  }

  lemma JoinFirst(head: string, parts: seq<string>, sep: char)
    requires parts != []
    ensures Join([""] + parts, sep) == [sep] + Join(parts, sep)
    ensures Join([head + parts[0]] + parts[1..], sep) == head + Join(parts, sep)
  {
    assert ([""] + parts)[1..] == parts;
    assert ([head + parts[0]] + parts[1..])[1..] == parts[1..];
  }

  /** Joining and splitting are inverse, so every text after the prefix is such a list of parts. */
  lemma {:induction false} JoinSplit(s: string, sep: char)
    ensures Join(Split(s, sep), sep) == s
    ensures forall p :: p in Split(s, sep) ==> sep !in p
  {
    if s != "" {
      var rest := Split(s[1..], sep);
      JoinSplit(s[1..], sep);
      JoinFirst([s[0]], rest, sep);
      assert [s[0]] + s[1..] == s;
      forall p | p in Split(s, sep) ensures sep !in p {
        assert s[0] != sep && p !in rest ==> p == [s[0]] + rest[0] && rest[0] in rest;
      }
    }
  }

  /** The well-known URL, for exactly the domains without a separator. */
  lemma WellKnownExact(domain: string)
    ensures WellKnownUrl(domain).Some? <==>
            domain != "" && forall c :: c in domain ==> c != '/' && c != '?' && c != '#' && c != '@' && c != '\\'
    ensures WellKnownUrl(domain).Some? ==>
            WellKnownUrl(domain).value == "https://" + domain + "/.well-known/wmp-configuration"
  {
  }
}
